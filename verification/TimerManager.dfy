/** The timers of an event loop: an ordered set, and one kernel timer that is armed for the earliest of them. */
module TimerManager {
  import opened Wrappers

  type Id = nat   // the address of a Timer; addresses break ties in the order

  // Times and intervals in microseconds.
  datatype Timer = Timer(expired: int, interval: nat)

  predicate Repeats(t: Timer) { t.interval > 0 }

  /** Timer::Comparator */
  predicate Less(a: Timer, i: Id, b: Timer, j: Id) { a.expired < b.expired || (a.expired == b.expired && i < j) }

  /** The comparator is a strict order, total on different timers: what std::set asks for. */
  lemma LessIsStrictOrder(a: Timer, i: Id, b: Timer, j: Id, c: Timer, k: Id)
    ensures !Less(a, i, a, i)
    ensures Less(a, i, b, j) && Less(b, j, c, k) ==> Less(a, i, c, k)
    ensures i != j ==> Less(a, i, b, j) || Less(b, j, a, i)
  {
  }

  // ----- The kernel timer

  const MIN_DELAY: int := 100
  const SECOND: int := 1_000_000

  /** The relative time that the kernel timer is set to. */
  function Delay(expired: int, now: int): int { if expired - now < MIN_DELAY then MIN_DELAY else expired - now }

  /** The split into seconds and nanoseconds is exact, in range, and never the pair (0, 0) that would disarm the
      timer. */
  lemma TimespecSplit(expired: int, now: int)
    ensures var d := Delay(expired, now); var sec, nsec := d / SECOND, d % SECOND * 1000;
      && sec * 1_000_000_000 + nsec == d * 1000 && 0 <= nsec < 1_000_000_000 && 0 <= sec && (sec, nsec) != (0, 0)
      && now + d == (if expired < now + MIN_DELAY then now + MIN_DELAY else expired)
  {
  }

  // ----- The ordered set

  ghost predicate Sorted(q: seq<Id>, info: map<Id, Timer>) {
    && (forall i :: 0 <= i < |q| ==> q[i] in info)
    && forall i, j :: 0 <= i < j < |q| ==> Less(info[q[i]], q[i], info[q[j]], q[j])
  }

  lemma SortedDistinct(q: seq<Id>, info: map<Id, Timer>)
    requires Sorted(q, info)
    ensures forall i, j :: 0 <= i < j < |q| ==> q[i] != q[j]
  {
  }

  lemma InsertedAt(q: seq<Id>, k: nat, id: Id, i: nat)
    requires k <= |q| && i < |q| + 1
    ensures var r := q[..k] + [id] + q[k..]; r[i] == if i < k then q[i] else if i == k then id else q[i - 1]
  {
  }

  lemma SortedInsert(q: seq<Id>, info: map<Id, Timer>, k: nat, id: Id)
    requires Sorted(q, info) && id in info && id !in q && k <= |q|
    requires forall i :: 0 <= i < k ==> Less(info[q[i]], q[i], info[id], id)
    requires k < |q| ==> !Less(info[q[k]], q[k], info[id], id)
    ensures Sorted(q[..k] + [id] + q[k..], info)
    ensures forall x :: x in q[..k] + [id] + q[k..] <==> x == id || x in q
  {
    var r := q[..k] + [id] + q[k..];
    assert forall i :: k <= i < |q| ==> Less(info[id], id, info[q[i]], q[i]) by {
      if k < |q| {
        LessIsStrictOrder(info[id], id, info[q[k]], q[k], info[id], id);
        assert Less(info[id], id, info[q[k]], q[k]);
      }
    }
    hide Less;
    forall i | 0 <= i < |r| ensures r[i] in info {
      InsertedAt(q, k, id, i);
    }
    forall i, j | 0 <= i < j < |r| ensures Less(info[r[i]], r[i], info[r[j]], r[j]) {
      InsertedAt(q, k, id, i);
      InsertedAt(q, k, id, j);
    }
    assert q == q[..k] + q[k..];
  }

  lemma FirstKept(q: seq<Id>, info: map<Id, Timer>, k: nat)
    requires Sorted(q, info) && k < |q|
    ensures var r := q[..k] + q[k + 1..];
      r != [] ==> r[0] in info && q[0] in info && info[q[0]].expired <= info[r[0]].expired
  {
  }

  lemma SortedRemove(q: seq<Id>, info: map<Id, Timer>, k: nat)
    requires Sorted(q, info) && k < |q|
    ensures Sorted(q[..k] + q[k + 1..], info)
    ensures forall x :: x in q[..k] + q[k + 1..] <==> x in q && x != q[k]
  {
    var r := q[..k] + q[k + 1..];
    forall i | 0 <= i < |r| ensures r[i] == q[if i < k then i else i + 1] && r[i] in info && r[i] != q[k] {
    }
    forall i, j | 0 <= i < j < |r| ensures Less(info[r[i]], r[i], info[r[j]], r[j]) {
    }
    assert q == q[..k] + [q[k]] + q[k + 1..];
  }

  // What a timer callback may do to the timers.
  datatype Op = Add(id: Id, timer: Timer, now: int) | Cancel(id: Id)

  // A call of the user, the kernel timer running down, and handleExpired with what its callbacks do.
  datatype Event =
    | Adds(id: Id, timer: Timer, now: int) | Cancels(id: Id) | Fires(now: int)
    | Expires(now: int, probe: Id, script: seq<seq<Op>>, now2: int)

  class TimerManager {
    var timers: seq<Id>             // the set, in its order
    var info: map<Id, Timer>        // the timers that exist or existed
    var armed: Option<int>          // when the kernel timer fires
    var fired: bool                 // it has, and handleRead is still to come
    ghost var armedAt: int
    ghost var batch: seq<Id>        // the timers of the running handleExpired
    ghost var ran: seq<Id>          // the callbacks that were run, in order
    ghost var cancelled: set<Id>    // the timers that were cancelled while they were in the set

    /** The set is in order, and what has been cancelled is nowhere. */
    ghost predicate Ordered()
      reads this
    {
      && Sorted(timers, info) && (forall i :: i in batch ==> i in info && i !in timers)
      && (forall i, j :: 0 <= i < j < |batch| ==> batch[i] != batch[j])
      && (forall i :: i in cancelled ==> i in info && i !in timers && i !in batch)
      && (forall i :: i in ran ==> i in info && (!Repeats(info[i]) ==> i !in timers))
    }

    /** One-shot timers have run at most once, and those still to run have not. */
    ghost predicate OneShots()
      reads this
    {
      forall i, j :: 0 <= i < j < |ran| && ran[i] == ran[j] ==> ran[i] in info && Repeats(info[ran[i]])
    }

    /** No timer is forgotten: the kernel timer has fired, or will not later than the earliest expiry or 100
        microseconds after it was armed. */
    ghost predicate Armed()
      reads this
    {
      timers != [] && timers[0] in info ==>
        fired || (armed.Some? && (armed.value <= info[timers[0]].expired || armed.value <= armedAt + MIN_DELAY))
    }

    ghost predicate Valid()
      reads this
    {
      Ordered() && OneShots() && Armed() && batch == []
    }

    constructor ()
      ensures Valid() && timers == [] && ran == [] && cancelled == {} && info == map[]
    {
      timers, info, armed, fired := [], map[], None, false;
      armedAt, batch, ran, cancelled := 0, [], [], {};
    }

    /** TimerfdChannel::resetExpired: what had fired before is taken back. */
    method Arm(expired: int, now: int)
      modifies this`armed, this`fired, this`armedAt
      ensures !fired && armed == Some(now + Delay(expired, now)) && armedAt == now
      ensures armed.value <= expired || armed.value == armedAt + MIN_DELAY
    {
      armed, fired, armedAt := Some(now + Delay(expired, now)), false, now;
    }

    /** insert: true if the new timer is the first to expire. */
    method Insert(id: Id) returns (isChanged: bool)
      requires Sorted(timers, info) && id in info && id !in timers
      modifies this`timers
      ensures Sorted(timers, info) && forall i :: i in timers <==> i == id || i in old(timers)
      ensures |timers| == |old(timers)| + 1
      ensures isChanged <==> old(timers) == [] || info[id].expired < info[old(timers)[0]].expired
      ensures !isChanged ==> info[timers[0]].expired == info[old(timers)[0]].expired
      ensures isChanged ==> timers[0] == id
    {
      isChanged := timers == [] || info[id].expired < info[timers[0]].expired;
      var k := 0;
      while k < |timers| && Less(info[timers[k]], timers[k], info[id], id)
        invariant 0 <= k <= |timers|
        invariant forall i :: 0 <= i < k ==> Less(info[timers[i]], timers[i], info[id], id)
      {
        k := k + 1;
      }
      SortedInsert(timers, info, k, id);
      hide Sorted, Less;
      timers := timers[..k] + [id] + timers[k..];
    }

    /** addTimerInLoop */
    method AddTimer(id: Id, timer: Timer, now: int)
      requires Ordered() && OneShots() && id !in info
      modifies this`timers, this`info, this`armed, this`fired, this`armedAt
      ensures Ordered() && OneShots() && (old(Armed()) ==> Armed())
      ensures |timers| == |old(timers)| + 1 && cancelled == old(cancelled)
      ensures info == old(info)[id := timer] && id in timers && forall i :: i in old(timers) ==> i in timers
    {
      info := info[id := timer];
      var isChanged := Insert(id);
      if isChanged {
        Arm(timer.expired, now);
      }
    }

    /** cancelInLoop: only a timer that is in the set can be cancelled. */
    method CancelTimer(id: Id) returns (effective: bool)
      requires Ordered() && OneShots()
      modifies this`timers, this`cancelled
      ensures Ordered() && OneShots() && (old(Armed()) ==> Armed())
      ensures effective <==> id in old(timers)
      ensures cancelled == old(cancelled) + if effective then {id} else {}
      ensures forall i :: i in timers <==> i in old(timers) && i != id
    {
      effective := id in timers;
      if effective {
        var k :| 0 <= k < |timers| && timers[k] == id;
        SortedRemove(timers, info, k);
        FirstKept(timers, info, k);
        hide Sorted, Less;
        timers := timers[..k] + timers[k + 1..];
        cancelled := cancelled + {id};
      }
    }

    /** The kernel's part. */
    method Fire(now: int)
      requires Valid() && armed.Some? && now >= armed.value
      modifies this`armed, this`fired
      ensures Valid() && fired && armed.None?
    {
      armed, fired := None, true;
    }

    /** getExpired: all timers before now leave the set, in order; of those that expire just now, the ones below the
        probe. */
    method GetExpired(now: int, probe: Id) returns (list: seq<Id>)
      requires Sorted(timers, info)
      modifies this`timers
      ensures list + timers == old(timers) && Sorted(timers, info)
      ensures forall i :: i in list ==> i in info && info[i].expired <= now
      ensures forall i :: i in timers ==> i in info && info[i].expired >= now
      ensures forall i :: i in old(timers) && info[i].expired < now ==> i in list
    {
      var k := 0;
      while k < |timers| && Less(info[timers[k]], timers[k], Timer(now, 0), probe)
        invariant 0 <= k <= |timers| && forall i :: 0 <= i < k ==> info[timers[i]].expired <= now
      {
        k := k + 1;
      }
      assert k == |timers| || now <= info[timers[k]].expired;
      list := timers[..k];
      ghost var was := timers;
      timers := timers[k..];
      assert list + timers == was;
      assert forall j :: 0 <= j < |timers| ==> timers[j] == was[k + j];
    }

    /** What the callback of a timer does, in the owner thread and at once. */
    method Apply(ops: seq<Op>)
      requires Ordered() && OneShots()
      modifies this`timers, this`info, this`armed, this`fired, this`armedAt, this`cancelled
      ensures Ordered() && OneShots()
      ensures forall i :: i in old(info) ==> i in info && info[i] == old(info)[i]
      ensures old(cancelled) <= cancelled
    {
      var k := 0;
      while k < |ops|
        invariant 0 <= k <= |ops| && Ordered() && OneShots()
        invariant forall i :: i in old(info) ==> i in info && info[i] == old(info)[i]
        invariant old(cancelled) <= cancelled
      {
        match ops[k] {
          case Add(id, timer, now) =>
            if id !in info {
              AddTimer(id, timer, now);
            }
          case Cancel(id) =>
            var _ := CancelTimer(id);
        }
        k := k + 1;
      }
    }

    /** The loop over the expired timers. */
    method RunBatch(list: seq<Id>, script: seq<seq<Op>>)
      requires Ordered() && OneShots() && batch == list
      requires forall i :: i in list && !Repeats(info[i]) ==> i !in ran
      modifies this`timers, this`info, this`armed, this`fired, this`armedAt, this`cancelled, this`ran
      ensures Ordered() && OneShots() && ran == old(ran) + list && old(cancelled) <= cancelled && batch == list
      ensures forall i :: i in old(info) ==> i in info && info[i] == old(info)[i]
    {
      var k := 0;
      while k < |list|
        invariant 0 <= k <= |list| && Ordered() && OneShots() && ran == old(ran) + list[..k] &&
          old(cancelled) <= cancelled
        invariant forall i :: i in old(info) ==> i in info && info[i] == old(info)[i]
      {
        OnceMore(ran, old(ran), list, k, info);
        ran := ran + [list[k]];
        assert list[..k + 1] == list[..k] + [list[k]];
        Apply(if k < |script| then script[k] else []);
        k := k + 1;
      }
      assert list[..k] == list;
    }

    /** One timer of the batch: if it repeats, it goes back into the set, one interval from now. */
    method Requeue(id: Id, now: int)
      requires Ordered() && OneShots() && batch != [] && id == batch[0]
      modifies this`timers, this`info, this`batch
      ensures Ordered() && OneShots() && batch == old(batch)[1..]
      ensures id in old(info) && var t := old(info)[id];
        if Repeats(t) then
          && info == old(info)[id := Timer(now + t.interval, t.interval)]
          && forall i :: i in timers <==> i == id || i in old(timers)
        else info == old(info) && timers == old(timers)
    {
      hide Sorted, Less;
      assert id in batch;
      assert forall i :: i in batch[1..] ==> i in batch && i != id;
      batch := batch[1..];
      if Repeats(info[id]) {
        var t := Timer(now + info[id].interval, info[id].interval);
        SortedOther(timers, info, id, t);
        info := info[id := t];
        var _ := Insert(id);
      }
    }

    /** resetTimers: the repeating timers of the batch go back, and the kernel timer is armed for the earliest of
        all. */
    method ResetTimers(list: seq<Id>, now: int, now2: int)
      requires Ordered() && OneShots() && batch == list
      modifies this`timers, this`info, this`armed, this`fired, this`armedAt, this`batch
      ensures Valid()
      ensures forall i :: i in list && Repeats(old(info)[i]) ==>
        i in timers && i in info && info[i] == Timer(now + old(info)[i].interval, old(info)[i].interval)
      ensures forall i :: i in list && !Repeats(old(info)[i]) ==> i !in timers
      ensures forall i :: i in old(timers) ==> i in timers
      ensures timers != [] ==>
        timers[0] in info && armed == Some(now2 + Delay(info[timers[0]].expired, now2)) && armedAt == now2
    {
      hide Sorted, Less, Delay;
      var k := 0;
      while k < |list|
        invariant 0 <= k <= |list| && Ordered() && OneShots() && batch == list[k..]
        invariant forall i :: k <= i < |list| ==> list[i] in info && info[list[i]] == old(info)[list[i]]
        invariant forall i :: 0 <= i < k ==> list[i] in info && var t := old(info)[list[i]];
          if Repeats(t) then list[i] in timers && info[list[i]] == Timer(now + t.interval, t.interval)
            else list[i] !in timers
        invariant forall i :: i in old(timers) ==> i in timers
      {
        Requeue(list[k], now);
        k := k + 1;
      }
      SortedIn(timers, info);
      if timers != [] {
        Arm(info[timers[0]].expired, now2);
      }
    }

    /** handleRead and handleExpired: what is due at `now` runs, in order, whatever the callbacks do. */
    method HandleExpired(now: int, probe: Id, script: seq<seq<Op>>, now2: int) returns (list: seq<Id>)
      requires Valid()
      modifies this
      ensures Valid() && ran == old(ran) + list && list <= old(timers) && old(cancelled) <= cancelled
      ensures forall i :: i in old(timers) && old(info)[i].expired < now ==> i in list
      ensures forall i :: i in list ==> old(info)[i].expired <= now && i !in old(cancelled) && i !in cancelled
      ensures forall i :: i in list && Repeats(old(info)[i]) ==>
        i in timers && info[i].expired == now + old(info)[i].interval
    {
      fired := false;
      SortedDistinct(timers, info);
      ghost var was := timers;
      list := GetExpired(now, probe);
      assert forall j :: 0 <= j < |list| ==> list[j] == was[j];
      assert forall j :: 0 <= j < |timers| ==> timers[j] == was[|list| + j];
      batch := list;
      RunBatch(list, script);
      ResetTimers(list, now, now2);
    }

    // ----- Whole runs

    /** Any run of the owner thread keeps the kernel timer armed for the earliest timer and runs one-shot timers at most
        once; and a timer that was cancelled while it was in the set never runs again. */
    method Drive(events: seq<Event>)
      requires Valid()
      modifies this
      ensures Valid() && old(ran) <= ran && old(cancelled) <= cancelled
      ensures forall i :: |old(ran)| <= i < |ran| ==> ran[i] !in old(cancelled)
    {
      hide Sorted, Armed, OneShots;
      var k := 0;
      while k < |events|
        invariant 0 <= k <= |events| && Valid() && old(ran) <= ran && old(cancelled) <= cancelled
        invariant forall i :: |old(ran)| <= i < |ran| ==> ran[i] !in old(cancelled)
      {
        match events[k] {
          case Adds(id, timer, now) =>
            if id !in info {
              AddTimer(id, timer, now);
            }
          case Cancels(id) =>
            var _ := CancelTimer(id);
          case Fires(now) =>
            if armed.Some? && now >= armed.value {
              Fire(now);
            }
          case Expires(now, probe, script, now2) =>
            ghost var before := ran;
            var list := HandleExpired(now, probe, script, now2);
            assert forall i :: |before| <= i < |ran| ==> ran[i] in list;
        }
        k := k + 1;
      }
    }
  }

  lemma SortedIn(q: seq<Id>, info: map<Id, Timer>)
    requires Sorted(q, info)
    ensures q != [] ==> q[0] in info
  {
  }

  lemma SortedOther(q: seq<Id>, info: map<Id, Timer>, id: Id, t: Timer)
    requires Sorted(q, info) && id !in q
    ensures Sorted(q, info[id := t])
  {
  }

  /** One more run of a timer that may run. */
  lemma OnceMore(ran: seq<Id>, before: seq<Id>, list: seq<Id>, k: nat, info: map<Id, Timer>)
    requires k < |list| && ran == before + list[..k] && (forall i, j :: 0 <= i < j < |list| ==> list[i] != list[j])
    requires list[k] in info && (!Repeats(info[list[k]]) ==> list[k] !in before)
    ensures !Repeats(info[list[k]]) ==> list[k] !in ran
  {
    assert forall j :: 0 <= j < k ==> list[..k][j] != list[k];
  }

  /** A repeating timer that cancels itself from its own callback goes on: it is not in the set while its batch runs. */
  method CancelFromOwnCallback() returns (m: TimerManager)
    ensures fresh(m) && m.Valid() && m.ran == [7] && 7 in m.timers && 7 !in m.cancelled
  {
    m := new TimerManager();
    m.AddTimer(7, Timer(1000, 500), 0);
    assert m.timers == [7];
    var list := m.HandleExpired(2000, 0, [[Cancel(7)]], 2000);
  }
}
