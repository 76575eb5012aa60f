/** The reference lock and the locked handle tree: threads find, use and close one epoll handle in any interleaving. */
module WepollReflock {
  import opened Wrappers

  type Tid(==)

  // ----- The 32-bit state word

  const WORD: int := 0x1_0000_0000
  const REF: int := 0x0000_0001
  const DESTROY: int := 0x1000_0000
  const POISON: int := 0x300d_ead0

  /** InterlockedAdd */
  function Add(word: int, d: int): int { (word + d) % WORD }

  /** state & REFLOCK__REF_MASK */
  function RefCount(word: int): int { word % DESTROY }

  /** state & REFLOCK__DESTROY_MASK, in units of REFLOCK__DESTROY */
  function DestroyBits(word: int): int { word / DESTROY }

  // ----- Threads

  // Where a thread is in epoll_ctl or epoll_wait (Find..., Using, Unref, Signal) or in epoll_close (Close..., and so
  // on).
  datatype Pc =
    | Idle
    | FindLock                     // AcquireSRWLockShared
    | FindLookup                   // tree_find
    | FindRef                      // reflock_ref
    | FindRelease(found: bool)     // ReleaseSRWLockShared
    | Using                        // port_ctl or port_wait
    | Unref                        // InterlockedAdd in reflock_unref
    | Signal                       // NtReleaseKeyedEvent
    | CloseLock                    // AcquireSRWLockExclusive
    | CloseLookup                  // tree_find
    | CloseDel                     // tree_del
    | CloseRef                     // reflock_ref
    | CloseRelease(found: bool)    // ReleaseSRWLockExclusive
    | Closing                      // port_close
    | UnrefDestroy                 // InterlockedAdd in reflock_unref_and_destroy
    | Await                        // NtWaitForKeyedEvent
    | Waiting                      // blocked in it
    | Poison                       // InterlockedExchange
    | Deleting                     // port_delete

  datatype Op = Use | Close

  datatype State = State(
    pcs: map<Tid, Pc>, inTree: bool, readers: set<Tid>, writer: Option<Tid>, word: int, waiter: Option<Tid>,
    deleted: bool,                  // the port has been freed
    // history, which no step depends on:
    closer: Option<Tid>,            // who has taken the handle out of the tree
    signaller: Option<Tid>,         // who has dropped the last reference while the closer waits
    signals: nat, deletes: nat)     // how often the keyed event was released and the port deleted

  predicate Init(s: State) {
    && (forall t :: t in s.pcs ==> s.pcs[t].Idle?)
    && s.inTree && s.readers == {} && s.writer.None? && s.word == 0 && s.waiter.None? && !s.deleted
    && s.closer.None? && s.signaller.None? && s.signals == 0 && s.deletes == 0
  }

  function Goto(s: State, t: Tid, pc: Pc): State { s.(pcs := s.pcs[t := pc]) }

  /** The threads that are in epoll_ctl or epoll_wait. */
  predicate InUse(pc: Pc) {
    pc.FindLock? || pc.FindLookup? || pc.FindRef? || pc.FindRelease? || pc.Using? || pc.Unref? || pc.Signal?
  }

  /** epoll_ctl and epoll_wait: ts_tree_find_and_ref, the call itself, ts_tree_node_unref */
  function UseStep(s: State, t: Tid): Option<State>
    requires t in s.pcs && InUse(s.pcs[t])
  {
    match s.pcs[t]
    case FindLock => if s.writer.Some? then None else Some(Goto(s, t, FindLookup).(readers := s.readers + {t}))
    case FindLookup => Some(Goto(s, t, if s.inTree then FindRef else FindRelease(false)))
    case FindRef => Some(Goto(s, t, FindRelease(true)).(word := Add(s.word, REF)))
    case FindRelease(found) => Some(Goto(s, t, if found then Using else Idle).(readers := s.readers - {t}))
    case Using => Some(Goto(s, t, Unref))
    case Unref =>
      var word := Add(s.word, -REF);
      if word == DESTROY then Some(Goto(s, t, Signal).(word := word, signaller := Some(t)))
      else Some(Goto(s, t, Idle).(word := word))
    case Signal =>
      if s.waiter.None? || s.waiter.value !in s.pcs then None
      else Some(Goto(Goto(s, s.waiter.value, Poison), t, Idle).(waiter := None, signaller := None,
        signals := s.signals + 1))
  }

  /** epoll_close: ts_tree_del_and_ref, port_close, ts_tree_node_unref_and_destroy, port_delete */
  function CloseStep(s: State, t: Tid): Option<State>
    requires t in s.pcs && !InUse(s.pcs[t]) && !s.pcs[t].Idle?
  {
    match s.pcs[t]
    case CloseLock => if s.writer.Some? || s.readers != {} then None
      else Some(Goto(s, t, CloseLookup).(writer := Some(t)))
    case CloseLookup => Some(Goto(s, t, if s.inTree then CloseDel else CloseRelease(false)))
    case CloseDel => Some(Goto(s, t, CloseRef).(inTree := false, closer := Some(t)))
    case CloseRef => Some(Goto(s, t, CloseRelease(true)).(word := Add(s.word, REF)))
    case CloseRelease(found) => Some(Goto(s, t, if found then Closing else Idle).(writer := None))
    case Closing => Some(Goto(s, t, UnrefDestroy))
    case UnrefDestroy =>
      var word := Add(s.word, DESTROY - REF);
      Some(Goto(s, t, if RefCount(word) != 0 then Await else Poison).(word := word))
    case Await => Some(Goto(s, t, Waiting).(waiter := Some(t)))
    case Waiting => None
    case Poison => Some(Goto(s, t, Deleting).(word := POISON))
    case Deleting => Some(Goto(s, t, Idle).(deleted := true, closer := None, deletes := s.deletes + 1))
  }

  /** The next step of thread t; None while it is blocked. `op` is what an idle thread starts. */
  function Step(s: State, t: Tid, op: Op): Option<State>
    requires t in s.pcs
  {
    if s.pcs[t].Idle? then Some(Goto(s, t, if op.Use? then FindLock else CloseLock))
    else if InUse(s.pcs[t]) then UseStep(s, t)
    else CloseStep(s, t)
  }

  /** The assertions that the C code makes about the word, at the step that thread t takes next. */
  predicate AssertionsHold(s: State, t: Tid)
    requires t in s.pcs
  {
    match s.pcs[t]
    case FindRef => DestroyBits(Add(s.word, REF)) == 0
    case CloseRef => DestroyBits(Add(s.word, REF)) == 0
    case Unref => DestroyBits(Add(s.word, -REF)) <= 1
    case UnrefDestroy => DestroyBits(Add(s.word, DESTROY - REF)) == 1
    case Poison => s.word == DESTROY
    case _ => true
  }

  /** The steps that touch the memory of the port. */
  predicate TouchesPort(pc: Pc) {
    || pc.FindRef? || pc.Using? || pc.Unref? || pc.CloseDel? || pc.CloseRef? || pc.Closing? || pc.UnrefDestroy? ||
      pc.Await?
    || pc.Waiting? || pc.Poison? || pc.Deleting? || pc == FindRelease(true) || pc == CloseRelease(true)
  }

  // ----- The invariant

  predicate Holding(pc: Pc) {
    pc == FindRelease(true) || pc.Using? || pc.Unref? || pc == CloseRelease(true) || pc.Closing? || pc.UnrefDestroy?
  }

  /** The threads between find-and-ref and unref. */
  function Holders(s: State): set<Tid> { set t | t in s.pcs && Holding(s.pcs[t]) }

  predicate Reading(pc: Pc) { pc.FindLookup? || pc.FindRef? || pc.FindRelease? }

  predicate Writing(pc: Pc) { pc.CloseLookup? || pc.CloseDel? || pc.CloseRef? || pc.CloseRelease? }

  /** The thread that has taken the handle out of the tree and has not deleted the port yet. */
  predicate Destroying(pc: Pc) {
    || pc.CloseRef? || pc == CloseRelease(true) || pc.Closing? || pc.UnrefDestroy? || pc.Await? || pc.Waiting? ||
      pc.Poison?
    || pc.Deleting?
  }

  predicate LockOk(s: State) {
    && (forall t :: t in s.readers ==> t in s.pcs && Reading(s.pcs[t]))
    && (forall t :: t in s.pcs && Reading(s.pcs[t]) ==> t in s.readers)
    && (s.writer.Some? ==> s.readers == {} && s.writer.value in s.pcs && Writing(s.pcs[s.writer.value]))
    && (forall t :: t in s.pcs && Writing(s.pcs[t]) ==> s.writer == Some(t))
  }

  /** At most one thread destroys, only after the handle has left the tree, and never after the port is gone. */
  predicate CloserOk(s: State) {
    && (forall t :: t in s.pcs && Destroying(s.pcs[t]) ==> s.closer == Some(t))
    && (s.closer.Some? ==> s.closer.value in s.pcs && Destroying(s.pcs[s.closer.value]))
    && (s.closer.None? <==> s.inTree || s.deleted)
    && !(s.inTree && s.deleted)
    && (forall t :: t in s.pcs && (s.pcs[t].FindRef? || s.pcs[t].CloseDel?) ==> s.inTree)
    && (s.waiter.Some? ==> s.waiter.value in s.pcs && s.pcs[s.waiter.value].Waiting?)
    && (forall t :: t in s.pcs && s.pcs[t].Waiting? ==> s.waiter == Some(t))
    && s.deletes == (if s.deleted then 1 else 0)
  }

  // How far the destruction of the port has come.
  datatype Phase = Open | Draining | Drained | Gone

  function PhaseOf(s: State): Phase {
    if s.deleted then Gone
    else if s.closer.None? || s.closer.value !in s.pcs then Open
    else
      var pc := s.pcs[s.closer.value];
      if pc.Deleting? then Gone else if pc.Poison? then Drained else if pc.Await? || pc.Waiting? then Draining else Open
  }

  /** The word counts the holders, with the DESTROY bit while the closer waits for them to go. */
  predicate WordOk(s: State) {
    && |s.pcs| < DESTROY
    && match PhaseOf(s)
       case Open => s.word == |Holders(s)|
       case Draining => s.word == DESTROY + |Holders(s)|
       case Drained => s.word == DESTROY && Holders(s) == {}
       case Gone => s.word == POISON && Holders(s) == {}
  }

  /** A thread is about to signal exactly if the closer waits and nobody holds a reference any more; and then it is one
      thread. */
  predicate SignalOk(s: State) {
    && (s.signaller.Some? <==> PhaseOf(s).Draining? && Holders(s) == {})
    && (s.signaller.Some? ==> s.signaller.value in s.pcs && s.pcs[s.signaller.value].Signal?)
    && (forall t :: t in s.pcs && s.pcs[t].Signal? ==> s.signaller == Some(t))
    && s.signals <= 1 && (s.signals == 1 ==> PhaseOf(s).Drained? || PhaseOf(s).Gone?)
  }

  predicate Inv(s: State) { LockOk(s) && CloserOk(s) && WordOk(s) && SignalOk(s) }

  // ----- Every step keeps it

  /** Moving one thread between states that hold a reference and states that do not. */
  lemma HoldersMove(s: State, t: Tid, pc: Pc)
    requires t in s.pcs
    ensures Holders(Goto(s, t, pc)) == if Holding(pc) then Holders(s) + {t} else Holders(s) - {t}
    ensures |Goto(s, t, pc).pcs| == |s.pcs|
    ensures |Holders(s)| <= |s.pcs| && |Holders(Goto(s, t, pc))| <= |s.pcs|
    ensures Holding(pc) && !Holding(s.pcs[t]) ==> |Holders(Goto(s, t, pc))| == |Holders(s)| + 1
    ensures !Holding(pc) && Holding(s.pcs[t]) ==> |Holders(Goto(s, t, pc))| == |Holders(s)| - 1
    ensures Holding(pc) == Holding(s.pcs[t]) ==> Holders(Goto(s, t, pc)) == Holders(s)
  {
    var h := Holders(s);
    assert h <= s.pcs.Keys && Holders(Goto(s, t, pc)) <= s.pcs.Keys;
    SubsetSize(h, s.pcs.Keys);
    SubsetSize(Holders(Goto(s, t, pc)), s.pcs.Keys);
    assert Goto(s, t, pc).pcs.Keys == s.pcs.Keys;
    assert |s.pcs| == |s.pcs.Keys|;
    assert |Goto(s, t, pc).pcs| == |Goto(s, t, pc).pcs.Keys|;
    if Holding(s.pcs[t]) {
      assert t in h;
      assert h + {t} == h;
    } else {
      assert h - {t} == h;
    }
  }

  lemma {:induction false} SubsetSize<T>(a: set<T>, b: set<T>)
    requires a <= b
    ensures |a| <= |b|
  {
    if a != {} {
      var x :| x in a;
      SubsetSize(a - {x}, b - {x});
    }
  }

  // What a step does to each part of the state, seen from the two states of the thread alone.

  predicate Moves(s: State, s': State, t: Tid) {
    t in s.pcs && t in s'.pcs && s'.pcs == s.pcs[t := s'.pcs[t]] && !s.pcs[t].Signal?
  }

  predicate LockEffect(s: State, s': State, pc: Pc, pc': Pc, t: Tid) {
    && s'.readers == (if Reading(pc') == Reading(pc) then s.readers else if Reading(pc) then s.readers - {t}
      else s.readers + {t})
    && s'.writer == (if Writing(pc') == Writing(pc) then s.writer else if Writing(pc) then None else Some(t))
    && (Reading(pc') && !Reading(pc) ==> s.writer.None?)
    && (Writing(pc') && !Writing(pc) ==> s.writer.None? && s.readers == {})
  }

  predicate CloserEffect(s: State, s': State, pc: Pc, pc': Pc, t: Tid) {
    && (Destroying(pc') <==> pc.CloseDel? || (Destroying(pc) && !pc.Deleting?))
    && s'.closer == (if pc.CloseDel? then Some(t) else if pc.Deleting? then None else s.closer)
    && s'.inTree == (s.inTree && !pc.CloseDel?) && s'.deleted == (s.deleted || pc.Deleting?)
    && (pc'.FindRef? || pc'.CloseDel? ==> s.inTree && (Reading(pc) || Writing(pc)))
    && s'.waiter == (if pc.Await? then Some(t) else s.waiter) && (pc'.Waiting? <==> pc.Await?)
    && (pc.Waiting? ==> false)
    && s'.deletes == s.deletes + if pc.Deleting? then 1 else 0
  }

  predicate WordEffect(s: State, s': State, pc: Pc, pc': Pc) {
    && s'.word == (
         if pc.FindRef? || pc.CloseRef? then Add(s.word, REF)
         else if pc.Unref? then Add(s.word, -REF)
         else if pc.UnrefDestroy? then Add(s.word, DESTROY - REF)
         else if pc.Poison? then POISON
         else s.word)
    && (Holding(pc') && !Holding(pc) <==> pc.FindRef? || pc.CloseRef?)
    && (!Holding(pc') && Holding(pc) <==> pc.Unref? || pc.UnrefDestroy?)
    && (pc'.Await? ==> pc.UnrefDestroy? && RefCount(s'.word) != 0)
    && (pc'.Poison? ==> pc.UnrefDestroy? && RefCount(s'.word) == 0)
    && (pc.UnrefDestroy? ==> pc'.Await? || pc'.Poison?)
    && (pc'.Deleting? <==> pc.Poison?)
    && (pc.Await? ==> pc'.Waiting?)
  }

  predicate SignalEffect(s: State, s': State, pc: Pc, pc': Pc, t: Tid) {
    && (pc'.Signal? <==> pc.Unref? && s'.word == DESTROY)
    && s'.signaller == (if pc'.Signal? then Some(t) else s.signaller)
    && s'.signals == s.signals
  }

  lemma UseStepLock(s: State, t: Tid)
    requires t in s.pcs && InUse(s.pcs[t]) && !s.pcs[t].Signal? && UseStep(s, t).Some?
    ensures var s' := UseStep(s, t).value; Moves(s, s', t) && LockEffect(s, s', s.pcs[t], s'.pcs[t], t)
  {
    hide Add, RefCount;
  }

  lemma CloseStepMoves(s: State, t: Tid)
    requires t in s.pcs && !InUse(s.pcs[t]) && !s.pcs[t].Idle? && CloseStep(s, t).Some?
    ensures Moves(s, CloseStep(s, t).value, t)
  {
    hide Add, RefCount;
  }

  lemma CloseStepLock(s: State, t: Tid)
    requires t in s.pcs && !InUse(s.pcs[t]) && !s.pcs[t].Idle? && CloseStep(s, t).Some?
    ensures var s' := CloseStep(s, t).value; Moves(s, s', t) && LockEffect(s, s', s.pcs[t], s'.pcs[t], t)
  {
    CloseStepMoves(s, t);
    CloseNotReading(s, t);
    CloseStepWriter(s, t);
    hide CloseStep, Moves, Reading, Writing;
  }

  lemma CloseNotReading(s: State, t: Tid)
    requires t in s.pcs && !InUse(s.pcs[t]) && !s.pcs[t].Idle? && CloseStep(s, t).Some?
    ensures var s' := CloseStep(s, t).value;
      t in s'.pcs && s'.readers == s.readers && !Reading(s.pcs[t]) && !Reading(s'.pcs[t])
  {
    hide Add, RefCount;
  }

  lemma CloseStepWriter(s: State, t: Tid)
    requires t in s.pcs && !InUse(s.pcs[t]) && !s.pcs[t].Idle? && CloseStep(s, t).Some?
    ensures var s' := CloseStep(s, t).value;
      && t in s'.pcs
      && s'.writer == (if s.pcs[t].CloseLock? then Some(t) else if s.pcs[t].CloseRelease? then None else s.writer)
      && (s.pcs[t].CloseLock? ==> s.writer.None? && s.readers == {})
      && (Writing(s.pcs[t]) <==>
        s.pcs[t].CloseLookup? || s.pcs[t].CloseDel? || s.pcs[t].CloseRef? || s.pcs[t].CloseRelease?)
      && (Writing(s'.pcs[t]) <==> s.pcs[t].CloseLock? || (Writing(s.pcs[t]) && !s.pcs[t].CloseRelease?))
  {
    hide Add, RefCount;
  }

  lemma UseStepCloser(s: State, t: Tid)
    requires t in s.pcs && InUse(s.pcs[t]) && !s.pcs[t].Signal? && UseStep(s, t).Some?
    ensures var s' := UseStep(s, t).value; CloserEffect(s, s', s.pcs[t], s'.pcs[t], t)
  {
    hide Add, RefCount;
  }

  lemma CloseStepCloser(s: State, t: Tid)
    requires t in s.pcs && !InUse(s.pcs[t]) && !s.pcs[t].Idle? && CloseStep(s, t).Some?
    ensures var s' := CloseStep(s, t).value; CloserEffect(s, s', s.pcs[t], s'.pcs[t], t)
  {
    hide Add, RefCount;
  }

  lemma UseStepWord(s: State, t: Tid)
    requires t in s.pcs && InUse(s.pcs[t]) && !s.pcs[t].Signal? && UseStep(s, t).Some?
    ensures var s' := UseStep(s, t).value;
      WordEffect(s, s', s.pcs[t], s'.pcs[t]) && SignalEffect(s, s', s.pcs[t], s'.pcs[t], t)
  {
    hide Add, RefCount;
  }

  lemma CloseStepWord(s: State, t: Tid)
    requires t in s.pcs && !InUse(s.pcs[t]) && !s.pcs[t].Idle? && CloseStep(s, t).Some?
    ensures var s' := CloseStep(s, t).value; WordEffect(s, s', s.pcs[t], s'.pcs[t])
  {
    hide Add, RefCount;
  }

  lemma CloseStepSignal(s: State, t: Tid)
    requires t in s.pcs && !InUse(s.pcs[t]) && !s.pcs[t].Idle? && CloseStep(s, t).Some?
    ensures var s' := CloseStep(s, t).value; SignalEffect(s, s', s.pcs[t], s'.pcs[t], t)
  {
    hide Add, RefCount;
  }

  lemma LockKept(s: State, s': State, t: Tid)
    requires Moves(s, s', t) && LockEffect(s, s', s.pcs[t], s'.pcs[t], t)
    requires LockOk(s)
    ensures LockOk(s')
  {
  }

  lemma CloserKept(s: State, s': State, t: Tid)
    requires Moves(s, s', t) && LockEffect(s, s', s.pcs[t], s'.pcs[t], t) && CloserEffect(s, s', s.pcs[t], s'.pcs[t], t)
    requires LockOk(s) && CloserOk(s)
    ensures CloserOk(s')
  {
  }

  lemma PhaseKept(s: State, s': State, t: Tid)
    requires Moves(s, s', t) && CloserEffect(s, s', s.pcs[t], s'.pcs[t], t) && WordEffect(s, s', s.pcs[t], s'.pcs[t])
    requires CloserOk(s)
    ensures var pc, pc' := s.pcs[t], s'.pcs[t];
      && PhaseOf(s') == (if pc.UnrefDestroy? then (if pc'.Await? then Draining else Drained)
        else if pc.Poison? then Gone else PhaseOf(s))
      && (pc.UnrefDestroy? || pc.FindRef? || pc.CloseRef? ==> PhaseOf(s).Open?)
      && (pc.Poison? ==> PhaseOf(s).Drained?)
  {
    hide Holding, Reading, Writing;
  }

  /** How a step changes the number of holders. */
  lemma HoldersStep(s: State, s': State, t: Tid)
    requires Moves(s, s', t)
    ensures |s'.pcs| == |s.pcs| && |Holders(s)| <= |s.pcs| && |Holders(s')| <= |s.pcs| &&
      (Holding(s.pcs[t]) ==> |Holders(s)| > 0)
    ensures var n := |Holders(s)|;
      |Holders(s')| == if Holding(s'.pcs[t]) == Holding(s.pcs[t]) then n else if Holding(s.pcs[t]) then n - 1 else n + 1
    ensures Holders(s) == {} <==> |Holders(s)| == 0
    ensures Holders(s') == {} <==> |Holders(s')| == 0
  {
    HoldersMove(s, t, s'.pcs[t]);
    assert Holders(s') == Holders(Goto(s, t, s'.pcs[t]));
    assert Holding(s.pcs[t]) ==> t in Holders(s);
  }

  lemma AssertionsKept(s: State, s': State, t: Tid)
    requires Moves(s, s', t) && CloserEffect(s, s', s.pcs[t], s'.pcs[t], t) && WordEffect(s, s', s.pcs[t], s'.pcs[t])
    requires CloserOk(s) && WordOk(s)
    ensures AssertionsHold(s, t)
  {
    HoldersStep(s, s', t);
    PhaseKept(s, s', t);
    hide Holders, PhaseOf, CloserOk, CloserEffect;
  }

  lemma WordArithmetic(n: nat)
    requires n < DESTROY
    ensures Add(n, REF) == n + 1 && (n > 0 ==> Add(n, -REF) == n - 1)
    ensures Add(DESTROY + n, -REF) == DESTROY + n - 1
    ensures n > 0 ==> Add(n, DESTROY - REF) == DESTROY + n - 1 && RefCount(DESTROY + n - 1) == n - 1
  {
  }

  lemma WordKept(s: State, s': State, t: Tid)
    requires Moves(s, s', t) && CloserEffect(s, s', s.pcs[t], s'.pcs[t], t) && WordEffect(s, s', s.pcs[t], s'.pcs[t])
    requires CloserOk(s) && WordOk(s)
    ensures WordOk(s')
  {
    HoldersStep(s, s', t);
    PhaseKept(s, s', t);
    WordArithmetic(|Holders(s)|);
    hide Holders, PhaseOf, CloserOk, CloserEffect, Add, RefCount;
  }

  lemma SignalKept(s: State, s': State, t: Tid)
    requires Moves(s, s', t) && CloserEffect(s, s', s.pcs[t], s'.pcs[t], t) && WordEffect(s, s', s.pcs[t], s'.pcs[t])
    requires SignalEffect(s, s', s.pcs[t], s'.pcs[t], t)
    requires CloserOk(s) && WordOk(s) && SignalOk(s)
    ensures SignalOk(s')
  {
    HoldersStep(s, s', t);
    PhaseKept(s, s', t);
    WordArithmetic(|Holders(s)|);
    hide Holders, PhaseOf, CloserOk, CloserEffect, Add, RefCount;
  }

  lemma SignalStepLock(s: State, t: Tid)
    requires LockOk(s) && CloserOk(s) && t in s.pcs && s.pcs[t].Signal? && UseStep(s, t).Some?
    ensures LockOk(UseStep(s, t).value) && CloserOk(UseStep(s, t).value)
  {
    assert s.pcs[s.waiter.value].Waiting?;
  }

  lemma SignalStepHolders(s: State, t: Tid)
    requires t in s.pcs && s.pcs[t].Signal? && UseStep(s, t).Some? && Holders(s) == {}
    ensures Holders(UseStep(s, t).value) == {} && |UseStep(s, t).value.pcs| == |s.pcs|
  {
    var s' := UseStep(s, t).value;
    assert s'.pcs.Keys == s.pcs.Keys;
    assert |s'.pcs| == |s'.pcs.Keys| && |s.pcs| == |s.pcs.Keys|;
    forall u | u in s'.pcs ensures !Holding(s'.pcs[u]) {
      assert u in s.pcs && u !in Holders(s);
    }
  }

  /** The rendezvous of the signalling thread with the waiting closer. */
  lemma SignalStepInv(s: State, t: Tid)
    requires Inv(s) && t in s.pcs && s.pcs[t].Signal? && UseStep(s, t).Some?
    ensures Inv(UseStep(s, t).value)
  {
    var w := s.waiter.value;
    var s' := UseStep(s, t).value;
    assert s.pcs[w].Waiting? && s.closer == Some(w) && w != t;
    assert PhaseOf(s).Draining? && Holders(s) == {};
    SignalStepHolders(s, t);
    SignalStepLock(s, t);
    hide LockOk, CloserOk, Holders, Reading, Writing;
  }

  /** Every step of every thread keeps the invariant, and no assertion of the C code fails at it. */
  lemma StepInv(s: State, t: Tid, op: Op)
    requires Inv(s) && t in s.pcs && Step(s, t, op).Some?
    ensures AssertionsHold(s, t) && Inv(Step(s, t, op).value)
  {
    hide Inv, LockOk, CloserOk, WordOk, SignalOk, UseStep, CloseStep, LockEffect, CloserEffect, WordEffect,
      SignalEffect, Moves, PhaseOf;
    var pc := s.pcs[t];
    var s' := Step(s, t, op).value;
    InvParts(s);
    InvParts(s');
    if pc.Signal? {
      SignalStepInv(s, t);
    } else {
      if pc.Idle? {
        IdleEffects(s, t, op);
      } else if InUse(pc) {
        UseStepLock(s, t);
        UseStepCloser(s, t);
        UseStepWord(s, t);
      } else {
        CloseStepLock(s, t);
        CloseStepCloser(s, t);
        CloseStepWord(s, t);
        CloseStepSignal(s, t);
      }
      assert t in s'.pcs by {
        MovesIn(s, s', t);
      }
      LockKept(s, s', t);
      CloserKept(s, s', t);
      WordKept(s, s', t);
      SignalKept(s, s', t);
      AssertionsKept(s, s', t);
    }
  }

  lemma MovesIn(s: State, s': State, t: Tid)
    requires Moves(s, s', t)
    ensures t in s'.pcs
  {
  }

  lemma InvParts(s: State)
    ensures Inv(s) <==> LockOk(s) && CloserOk(s) && WordOk(s) && SignalOk(s)
  {
  }

  lemma IdleEffects(s: State, t: Tid, op: Op)
    requires t in s.pcs && s.pcs[t].Idle?
    ensures var s' := Step(s, t, op).value;
      && Moves(s, s', t)
      && LockEffect(s, s', s.pcs[t], s'.pcs[t], t) && CloserEffect(s, s', s.pcs[t], s'.pcs[t], t)
      && WordEffect(s, s', s.pcs[t], s'.pcs[t]) && SignalEffect(s, s', s.pcs[t], s'.pcs[t], t)
  {
  }

  lemma InitInv(s: State)
    requires Init(s) && |s.pcs| < DESTROY
    ensures Inv(s)
  {
    assert Holders(s) == {};
  }

  // ----- Whole runs

  ghost predicate Next(s: State, s': State) { exists t, op :: t in s.pcs && Step(s, t, op) == Some(s') }

  ghost predicate Run(states: seq<State>) {
    && states != [] && Init(states[0]) && |states[0].pcs| < DESTROY
    && forall i :: 0 <= i < |states| - 1 ==> Next(states[i], states[i + 1])
  }

  lemma {:induction false} RunInv(states: seq<State>, i: nat)
    requires Run(states) && i < |states|
    ensures Inv(states[i])
  {
    hide Inv, Step, Init;
    if i == 0 {
      InitInv(states[0]);
    } else {
      RunInv(states, i - 1);
      assert Next(states[i - 1], states[i - 1 + 1]);
      var t, op :| t in states[i - 1].pcs && Step(states[i - 1], t, op) == Some(states[i]);
      StepInv(states[i - 1], t, op);
    }
  }

  /** Throughout every run of any threads: nobody touches the port once it has been freed; the thread that deletes it is
      alone; the exchange with POISON finds DESTROY; who signals has somebody to wake; all that happens at most once. */
  lemma RunSafe(states: seq<State>, i: nat, t: Tid)
    requires Run(states) && i < |states| && t in states[i].pcs
    ensures var s := states[i]; var pc := s.pcs[t];
      && (TouchesPort(pc) ==> !s.deleted)
      && (pc.Deleting? ==> forall u :: u in s.pcs && u != t ==> !TouchesPort(s.pcs[u]))
      && (pc.Poison? ==> s.word == DESTROY)
      && (pc.Signal? ==> s.closer.Some? && s.closer.value in s.pcs && var c := s.pcs[s.closer.value];
        c.Await? || c.Waiting?)
      && s.signals <= 1 && s.deletes <= 1
  {
    RunInv(states, i);
    var s := states[i];
    if s.pcs[t].Deleting? || s.deleted {
      forall u | u in s.pcs ensures !Holding(s.pcs[u]) {
        assert u !in Holders(s);
      }
    }
  }

  /** The assertions of the C code hold at every step of every run. */
  lemma RunAssertions(states: seq<State>, i: nat, t: Tid, op: Op)
    requires Run(states) && i < |states| && t in states[i].pcs
    ensures AssertionsHold(states[i], t)
  {
    RunInv(states, i);
    hide Inv, UseStep;
    if Step(states[i], t, op).Some? {
      StepInv(states[i], t, op);
    } else {
      BlockedFree(states[i], t, op);
    }
  }

  lemma BlockedFree(s: State, t: Tid, op: Op)
    requires t in s.pcs && Step(s, t, op).None?
    ensures AssertionsHold(s, t)
    ensures s.pcs[t].FindLock? || s.pcs[t].CloseLock? || s.pcs[t].Waiting? || s.pcs[t].Signal?
  {
  }

  predicate Ready(s: State, t: Tid)
    requires t in s.pcs
  {
    !s.pcs[t].Idle? && Step(s, t, Use).Some?
  }

  /** As long as some call is under way, some call can go on: the threads never wait for each other in a circle. */
  lemma NoDeadlock(s: State, t: Tid) returns (u: Tid)
    requires Inv(s) && t in s.pcs && !s.pcs[t].Idle?
    ensures u in s.pcs && Ready(s, u)
  {
    if !Step(s, t, Use).None? {
      return t;
    }
    BlockedFree(s, t, Use);
    if s.pcs[t].Waiting? || s.pcs[t].Signal? {
      u := DrainingMoves(s);
    } else if s.writer.Some? {
      return s.writer.value;
    } else {
      u :| u in s.readers;
      assert Reading(s.pcs[u]);
    }
  }

  lemma DrainingMoves(s: State) returns (u: Tid)
    requires Inv(s) && PhaseOf(s).Draining?
    ensures u in s.pcs && Ready(s, u)
  {
    var c := s.closer.value;
    if s.pcs[c].Await? {
      return c;
    }
    if s.signaller.Some? {
      return s.signaller.value;
    }
    u :| u in Holders(s);
  }

  /** Once the closer waits, no thread gets a new reference: what it waits for only shrinks. */
  lemma NoNewHolders(s: State, t: Tid, op: Op)
    requires Inv(s) && !s.inTree && PhaseOf(s).Draining? && t in s.pcs && Step(s, t, op).Some? && !s.pcs[t].Signal?
    ensures Holders(Step(s, t, op).value) <= Holders(s)
  {
    hide UseStep, CloseStep, WordOk, SignalOk;
    var s' := Step(s, t, op).value;
    if s.pcs[t].Idle? {
      IdleEffects(s, t, op);
    } else if InUse(s.pcs[t]) {
      UseStepLock(s, t);
      UseStepWord(s, t);
    } else {
      CloseStepLock(s, t);
      CloseStepWord(s, t);
    }
    HoldersMove(s, t, s'.pcs[t]);
    assert Holders(s') == Holders(Goto(s, t, s'.pcs[t]));
  }

  // ----- All calls return

  /** How many steps a call still has to make, at most. */
  function Rank(pc: Pc): nat {
    match pc
    case Idle => 0
    case Signal => 1
    case Unref => 2
    case Using => 3
    case FindRelease(_) => 4
    case FindRef => 5
    case FindLookup => 6
    case FindLock => 7
    case Deleting => 1
    case Poison => 2
    case Waiting => 3
    case Await => 4
    case UnrefDestroy => 5
    case Closing => 6
    case CloseRelease(_) => 7
    case CloseRef => 8
    case CloseDel => 9
    case CloseLookup => 10
    case CloseLock => 11
  }

  ghost function Work(pcs: map<Tid, Pc>, ts: set<Tid>): nat
    requires ts <= pcs.Keys
  {
    if ts == {} then 0
    else
      var t :| t in ts;
      Rank(pcs[t]) + Work(pcs, ts - {t})
  }

  lemma {:induction false} WorkSplit(pcs: map<Tid, Pc>, ts: set<Tid>, t: Tid)
    requires ts <= pcs.Keys && t in ts
    ensures Work(pcs, ts) == Rank(pcs[t]) + Work(pcs, ts - {t})
    decreases |ts|
  {
    hide Rank;
    var u :| u in ts && Work(pcs, ts) == Rank(pcs[u]) + Work(pcs, ts - {u});
    if u != t {
      WorkSplit(pcs, ts - {u}, t);
      WorkSplit(pcs, ts - {t}, u);
      assert ts - {u} - {t} == ts - {t} - {u};
    }
  }

  lemma {:induction false} WorkSame(pcs: map<Tid, Pc>, pcs': map<Tid, Pc>, ts: set<Tid>)
    requires ts <= pcs.Keys && ts <= pcs'.Keys && forall t :: t in ts ==> pcs'[t] == pcs[t]
    ensures Work(pcs', ts) == Work(pcs, ts)
    decreases |ts|
  {
    hide Rank;
    if ts != {} {
      var t :| t in ts;
      WorkSplit(pcs, ts, t);
      WorkSplit(pcs', ts, t);
      WorkSame(pcs, pcs', ts - {t});
    }
  }

  ghost function AllWork(s: State): nat { Work(s.pcs, s.pcs.Keys) }

  lemma GotoWork(s: State, t: Tid, pc: Pc)
    requires t in s.pcs
    ensures AllWork(Goto(s, t, pc)) + Rank(s.pcs[t]) == AllWork(s) + Rank(pc)
  {
    hide Rank;
    var s' := Goto(s, t, pc);
    assert s'.pcs.Keys == s.pcs.Keys;
    WorkSplit(s.pcs, s.pcs.Keys, t);
    WorkSplit(s'.pcs, s.pcs.Keys, t);
    WorkSame(s.pcs, s'.pcs, s.pcs.Keys - {t});
  }

  lemma UseRank(s: State, t: Tid)
    requires t in s.pcs && InUse(s.pcs[t]) && !s.pcs[t].Signal? && UseStep(s, t).Some?
    ensures t in UseStep(s, t).value.pcs && Rank(UseStep(s, t).value.pcs[t]) < Rank(s.pcs[t])
  {
    hide Add;
  }

  lemma CloseRank(s: State, t: Tid)
    requires t in s.pcs && !InUse(s.pcs[t]) && !s.pcs[t].Idle? && CloseStep(s, t).Some?
    ensures t in CloseStep(s, t).value.pcs && Rank(CloseStep(s, t).value.pcs[t]) < Rank(s.pcs[t])
  {
    hide Add, RefCount;
  }

  /** Every step of a call is progress, so that no schedule goes on for ever unless new calls are made. */
  lemma StepWorks(s: State, t: Tid, op: Op)
    requires Inv(s) && t in s.pcs && !s.pcs[t].Idle? && Step(s, t, op).Some?
    ensures AllWork(Step(s, t, op).value) < AllWork(s)
  {
    hide AllWork, LockOk, WordOk, LockEffect, CloserEffect, WordEffect, SignalEffect;
    var s' := Step(s, t, op).value;
    if s.pcs[t].Signal? {
      var w := s.waiter.value;
      assert s.pcs[w].Waiting? && w != t;
      GotoWork(s, w, Poison);
      GotoWork(Goto(s, w, Poison), t, Idle);
      SameWork(s', Goto(Goto(s, w, Poison), t, Idle));
    } else {
      if InUse(s.pcs[t]) {
        UseStepLock(s, t);
        UseRank(s, t);
      } else {
        CloseStepMoves(s, t);
        CloseRank(s, t);
      }
      hide Inv, UseStep, CloseStep, Rank;
      GotoWork(s, t, s'.pcs[t]);
      SameWork(s', Goto(s, t, s'.pcs[t]));
    }
  }

  lemma SameWork(s: State, s': State)
    requires s.pcs == s'.pcs
    ensures AllWork(s) == AllWork(s')
  {
  }

  ghost predicate Quiet(s: State) { forall t :: t in s.pcs ==> s.pcs[t].Idle? }

  /** When no call is under way, the port is either open and without references, or it has been deleted once. */
  lemma QuietState(s: State)
    requires Inv(s) && Quiet(s)
    ensures if s.inTree then s.word == 0 && s.deletes == 0 && !s.deleted
      else s.word == POISON && s.deletes == 1 && s.deleted
  {
    assert Holders(s) == {};
  }

  /** Without new calls, a run that always lets some ready thread go on ends, after AllWork(s) steps at most, with no
      call left. */
  lemma {:induction false} AllReturn(s: State) returns (states: seq<State>)
    requires Inv(s)
    ensures states != [] && states[0] == s && |states| <= AllWork(s) + 1
    ensures forall i :: 0 <= i < |states| - 1 ==> Next(states[i], states[i + 1])
    ensures Quiet(states[|states| - 1]) && Inv(states[|states| - 1])
    decreases AllWork(s)
  {
    hide Inv, Step, AllWork;
    if Quiet(s) {
      return [s];
    }
    var t :| t in s.pcs && !s.pcs[t].Idle?;
    var u := NoDeadlock(s, t);
    var s' := Step(s, u, Use).value;
    StepInv(s, u, Use);
    StepWorks(s, u, Use);
    assert Next(s, s');
    var rest := AllReturn(s');
    states := [s] + rest;
    forall i | 0 <= i < |states| - 1 ensures Next(states[i], states[i + 1]) {
      if i > 0 {
        assert states[i] == rest[i - 1] && states[i + 1] == rest[i - 1 + 1];
        assert Next(rest[i - 1], rest[i - 1 + 1]);
      }
    }
  }
}
