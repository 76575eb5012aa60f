/** The epoll port: registering and polling sockets, with the kernel's answers taken as they come. */
module WepollPort {
  import opened Wrappers
  import opened WepollSocket

  // ----- How the records change

  lemma MembersSame(socks: map<Id, Sock>, i: Id, s: Sock)
    requires i in socks && s.group == socks[i].group
    ensures forall g :: Members(socks[i := s], g) == Members(socks, g)
  {
  }

  lemma MembersAdd(socks: map<Id, Sock>, i: Id, s: Sock)
    requires i !in socks
    ensures forall g :: |Members(socks[i := s], g)| == |Members(socks, g)| + if g == s.group then 1 else 0
    ensures |socks[i := s]| == |socks| + 1
  {
    forall g ensures |Members(socks[i := s], g)| == |Members(socks, g)| + if g == s.group then 1 else 0 {
      MembersAdded(socks, i, s, g);
    }
    assert socks[i := s].Keys == socks.Keys + {i};
    assert |socks[i := s]| == |socks[i := s].Keys| && |socks| == |socks.Keys|;
  }

  lemma MembersAdded(socks: map<Id, Sock>, i: Id, s: Sock, g: Gid)
    requires i !in socks
    ensures |Members(socks[i := s], g)| == |Members(socks, g)| + if g == s.group then 1 else 0
  {
    var after := Members(socks[i := s], g);
    if g == s.group {
      assert after == Members(socks, g) + {i};
    } else {
      assert after == Members(socks, g);
    }
  }

  lemma MembersRemove(socks: map<Id, Sock>, i: Id)
    requires i in socks
    ensures forall g :: |Members(socks - {i}, g)| == |Members(socks, g)| - if g == socks[i].group then 1 else 0
    ensures |socks - {i}| == |socks| - 1
  {
    forall g ensures |Members(socks - {i}, g)| == |Members(socks, g)| - if g == socks[i].group then 1 else 0 {
      assert Members(socks - {i}, g) == Members(socks, g) - if g == socks[i].group then {i} else {};
    }
    assert (socks - {i}).Keys == socks.Keys - {i};
    assert |socks - {i}| == |(socks - {i}).Keys| && |socks| == |socks.Keys|;
  }

  ghost predicate GroupList(groups: seq<Gid>, sizes: map<Gid, nat>) {
    && Distinct(groups) && (forall g :: g in groups <==> g in sizes) && FullFirst(groups, sizes)
    && (forall g :: g in sizes ==> sizes[g] <= MAX_GROUP_SIZE)
  }

  ghost predicate GroupCount(socks: map<Id, Sock>, sizes: map<Gid, nat>) {
    && (forall i :: i in socks ==> socks[i].group in sizes)
    && (forall g :: g in sizes ==> sizes[g] == |Members(socks, g)|)
  }

  /** No room in the last group means no room at all: the port needs another group. */
  lemma LastFull(socks: map<Id, Sock>, groups: seq<Gid>, sizes: map<Gid, nat>)
    requires GroupList(groups, sizes) && GroupCount(socks, sizes)
    requires groups != [] ==> sizes[groups[|groups| - 1]] == MAX_GROUP_SIZE
    ensures |socks| == MAX_GROUP_SIZE * |groups|
  {
    forall g | g in groups ensures sizes[g] == MAX_GROUP_SIZE {
      LastFullAllFull(groups, sizes, g);
    }
    TotalIsSockets(socks, groups, sizes);
    TotalFull(groups, sizes);
  }

  /** The last group has taken one more and still has room. */
  lemma Grown(groups: seq<Gid>, sizes: map<Gid, nat>, g: Gid)
    requires GroupList(groups, sizes) && groups != [] && g == groups[|groups| - 1] && sizes[g] + 1 < MAX_GROUP_SIZE
    ensures GroupList(groups, sizes[g := sizes[g] + 1])
  {
    var sizes' := sizes[g := sizes[g] + 1];
    var rest := Without(groups, g);
    WithoutMembers(groups, g);
    FullFirstWithout(groups, sizes, g);
    FullFirstSizes(rest, sizes, sizes');
    WithoutLast(groups);
    FullFirstAppend(rest, sizes', g);
    hide FullFirst, Distinct;
  }

  /** A group that has become full goes to the front. */
  lemma Filled(groups: seq<Gid>, sizes: map<Gid, nat>, g: Gid)
    requires GroupList(groups, sizes) && g in groups && sizes[g] + 1 == MAX_GROUP_SIZE
    ensures GroupList([g] + Without(groups, g), sizes[g := sizes[g] + 1]) && |Without(groups, g)| == |groups| - 1
  {
    var sizes' := sizes[g := sizes[g] + 1];
    var rest := Without(groups, g);
    WithoutMembers(groups, g);
    FullFirstWithout(groups, sizes, g);
    FullFirstSizes(rest, sizes, sizes');
    AppendMembers(rest, g);
    FullFirstPrepend(rest, sizes', g);
    hide FullFirst, Distinct;
  }

  lemma FullFirstPrepend(groups: seq<Gid>, sizes: map<Gid, nat>, g: Gid)
    requires FullFirst(groups, sizes) && g in sizes && sizes[g] == MAX_GROUP_SIZE
    ensures FullFirst([g] + groups, sizes)
  {
    assert ([g] + groups)[1..] == groups;
  }

  lemma {:induction false} WithoutLast<T>(q: seq<T>)
    requires Distinct(q) && q != []
    ensures Without(q, q[|q| - 1]) + [q[|q| - 1]] == q
  {
    if |q| > 1 {
      assert q[0] != q[|q| - 1];
      WithoutLast(q[1..]);
    }
  }

  /** A group has lost one and goes to the end. */
  lemma Reduced(groups: seq<Gid>, sizes: map<Gid, nat>, g: Gid)
    requires GroupList(groups, sizes) && g in sizes && sizes[g] > 0
    ensures GroupList(Without(groups, g) + [g], sizes[g := sizes[g] - 1]) && |Without(groups, g) + [g]| == |groups|
  {
    var sizes' := sizes[g := sizes[g] - 1];
    var rest := Without(groups, g);
    WithoutMembers(groups, g);
    FullFirstWithout(groups, sizes, g);
    FullFirstSizes(rest, sizes, sizes');
    FullFirstAppend(rest, sizes', g);
  }

  /** A new group at the end of none but full groups. */
  lemma Created(groups: seq<Gid>, sizes: map<Gid, nat>, g: Gid)
    requires GroupList(groups, sizes) && g !in sizes
    ensures GroupList(groups + [g], sizes[g := 0])
  {
    AppendMembers(groups, g);
    FullFirstSizes(groups, sizes, sizes[g := 0]);
    FullFirstAppend(groups, sizes[g := 0], g);
  }

  lemma GroupKeys(groups: seq<Gid>, sizes: map<Gid, nat>)
    requires GroupList(groups, sizes)
    ensures forall g :: g in groups <==> g in sizes
    ensures forall g :: g in sizes ==> sizes[g] <= MAX_GROUP_SIZE
  {
  }

  /** The last group, which is the only one that is looked at, takes one more. */
  predicate HasRoom(groups: seq<Gid>, sizes: map<Gid, nat>) {
    groups != [] && groups[|groups| - 1] in sizes && sizes[groups[|groups| - 1]] < MAX_GROUP_SIZE
  }

  function Max(a: nat, b: nat): nat { if a < b then b else a }

  // What a constructor comes to: a value, a null pointer, or a failed assertion, which ends the program.
  datatype Made<T> = Made(value: T) | Refused | Asserted

  /** The peak after an addition: a new group is to spare if the addition fails all the same, and until a new peak is
      reached. */
  function NextPeak(p: Peak, live: nat, added: bool, newGroup: bool): Peak {
    if added then Peak(Max(p.live, live + 1), p.spare && live + 1 <= p.live) else Peak(p.live, p.spare || newGroup)
  }

  // What an addition met and came to: the number of sockets before it, and whether a group was made for it.
  datatype Addition = Addition(live: nat, added: bool, newGroup: bool)

  predicate Vain(a: Addition) { a.newGroup && !a.added }

  function PeaksFrom(p: Peak, h: seq<Addition>): Peak {
    if h == [] then p
    else
      var a := h[|h| - 1];
      NextPeak(PeaksFrom(p, h[..|h| - 1]), a.live, a.added, a.newGroup)
  }

  lemma PeaksNext(p: Peak, h: seq<Addition>, a: Addition)
    ensures PeaksFrom(p, h + [a]) == NextPeak(PeaksFrom(p, h), a.live, a.added, a.newGroup)
  {
    assert (h + [a])[..|h|] == h;
  }

  /** The addition at k was vain, and since then the number of sockets has not passed the peak of that time. */
  predicate SpareSince(p: Peak, h: seq<Addition>, k: nat) {
    && k < |h| && Vain(h[k])
    && forall j :: k < j < |h| && h[j].added ==> h[j].live < PeaksFrom(p, h[..k]).live
  }

  /** There is a spare group after a run exactly if there was such a vain addition. */
  lemma {:induction false} SpareExactly(p: Peak, h: seq<Addition>)
    requires !p.spare
    ensures PeaksFrom(p, h).spare <==> exists k: nat :: SpareSince(p, h, k)
    ensures forall k: nat :: SpareSince(p, h, k) ==> PeaksFrom(p, h).live == PeaksFrom(p, h[..k]).live
    decreases |h|
  {
    if h != [] {
      var init, a := h[..|h| - 1], h[|h| - 1];
      assert h == init + [a];
      PeaksNext(p, init, a);
      SpareExactly(p, init);
      hide PeaksFrom;
      forall k: nat | SpareSince(p, h, k) ensures
        PeaksFrom(p, h).live == PeaksFrom(p, h[..k]).live && PeaksFrom(p, h).spare {
        if k < |init| {
          SpareBefore(p, init, a, k);
        }
      }
      if PeaksFrom(p, h).spare {
        if Vain(a) {
          assert SpareSince(p, h, |init|);
        } else {
          var k :| SpareSince(p, init, k);
          SpareBefore(p, init, a, k);
        }
      }
    }
  }

  lemma SpareBefore(p: Peak, h: seq<Addition>, a: Addition, k: nat)
    requires k < |h|
    ensures (h + [a])[..k] == h[..k]
    ensures SpareSince(p, h + [a], k) <==> SpareSince(p, h, k) && (a.added ==> a.live < PeaksFrom(p, h[..k]).live)
  {
    hide PeaksFrom;
    var g := h + [a];
    assert g[..k] == h[..k] && g[|h|] == a && forall j :: 0 <= j < |h| ==> g[j] == h[j];
  }

  /** A valid socket needs a new group, and gets one. */
  predicate NewGroup(valid: bool, createOk: bool, open: bool, room: bool) { valid && createOk && open && !room }

  // What the kernel says to a poll request, and about a completed poll.
  datatype PollResult = Submitted | InvalidHandle | OtherError
  datatype Completion = CancelledByUs | Failed | NoHandles | Reported(events: AfdEvents)

  datatype Report = Report(events: Events, userData: int)

  /** Every record that was ever made is in use or has been freed, and never both; none is freed twice. */
  ghost predicate Fresh(socks: map<Id, Sock>, freed: seq<Id>, sizes: map<Gid, nat>, nextSock: Id, nextGroup: Gid) {
    && (forall i: Id :: i in socks || i in freed <==> i < nextSock)
    && (forall i :: i in freed ==> i !in socks) && Distinct(freed)
    && (forall g :: g in sizes ==> g < nextGroup)
  }

  /** What the sockets, the tree, the queues and the kernel have to do with each other. */
  ghost predicate SocketsOk(socks: map<Id, Sock>, tree: map<Socket, Id>, updates: seq<Id>, deleted: seq<Id>,
      outstanding: set<Id>, x: set<Id>)
  {
    TreeOk(socks, tree) && QueuesOk(socks, updates, deleted, x) && KernelOk(socks, outstanding) &&
      InterestOk(socks, updates, x)
  }

  /** The number of groups is what the peak of live sockets needs, and one more if there is a spare group: one that was
      made for a socket which could not be added then, when all groups were full, and has not been needed since. */
  predicate Bounded(live: nat, groups: nat, livePeak: nat, spare: bool) {
    && live <= livePeak && groups == GroupsFor(livePeak) + (if spare then 1 else 0)
    && (spare ==> livePeak % MAX_GROUP_SIZE == 0)
  }

  /** The bound by the peak of live sockets holds exactly if there is no spare group; it is never off by more than one
      socket. */
  lemma BoundIffNoSpare(v: View)
    requires Ok(v, {})
    ensures |v.groups| <= GroupsFor(v.peak.live) <==> !v.peak.spare
    ensures GroupsFor(v.peak.live) <= |v.groups| <= GroupsFor(v.peak.live + 1)
  {
    hide SocketsOk, GroupList, GroupCount, Fresh;
  }

  // The largest number of sockets at any time; and whether a group was made in vain, and that peak has not been passed
  // since.
  datatype Peak = Peak(live: nat, spare: bool)

  // The whole state of a port, as a value.
  datatype View = View(
    socks: map<Id, Sock>, tree: map<Socket, Id>, updates: seq<Id>, deleted: seq<Id>, groups: seq<Gid>, sizes: map<Gid,
      nat>,
    iocpOpen: bool, nextSock: Id, nextGroup: Gid, outstanding: set<Id>, freed: seq<Id>, abandoned: set<Id>,
    peak: Peak)

  /** The invariant, with the interest of the sockets in x still to be looked after. */
  ghost predicate Ok(v: View, x: set<Id>) {
    && SocketsOk(v.socks, v.tree, v.updates, v.deleted, v.outstanding, x)
    && GroupList(v.groups, v.sizes) && GroupCount(v.socks, v.sizes)
    && Fresh(v.socks, v.freed, v.sizes, v.nextSock, v.nextGroup) &&
      Bounded(|v.socks|, |v.groups|, v.peak.live, v.peak.spare)
    && (v.iocpOpen ==> v.abandoned == {})
  }

  lemma SockAdded(socks: map<Id, Sock>, tree: map<Socket, Id>, updates: seq<Id>, deleted: seq<Id>, outstanding: set<Id>,
                  i: Id, s: Sock)
    requires SocketsOk(socks, tree, updates, deleted, outstanding, {})
    requires i !in socks && s.key !in tree && s.status.Idle? && !s.deletePending && s.pendingEvents == 0
    ensures SocketsOk(socks[i := s], tree[s.key := i], updates, deleted, outstanding, {i})
  {
    hide Distinct, Watched;
  }

  lemma CountAdded(socks: map<Id, Sock>, sizes: map<Gid, nat>, i: Id, s: Sock)
    requires GroupCount(socks, sizes) && i !in socks
    ensures GroupCount(socks[i := s], sizes[s.group := (if s.group in sizes then sizes[s.group] else 0) + 1])
    ensures |socks[i := s]| == |socks| + 1
  {
    MembersAdd(socks, i, s);
    NobodyIn(socks, sizes, s.group);
    hide Members;
  }

  /** A group that was acquired in vain is empty or as large as before. */
  lemma CountReturned(socks: map<Id, Sock>, sizes: map<Gid, nat>, g: Gid)
    requires GroupCount(socks, sizes)
    ensures GroupCount(socks, sizes[g := if g in sizes then sizes[g] else 0])
  {
    NobodyIn(socks, sizes, g);
    hide Members;
  }

  /** w is v after a group has been acquired. */
  ghost predicate Acquired(v: View, w: View, g: Gid) {
    && w == v.(groups := w.groups, sizes := w.sizes, nextGroup := w.nextGroup)
    && w.sizes == v.sizes[g := (if g in v.sizes then v.sizes[g] else 0) + 1]
    && (g in v.sizes || (g == v.nextGroup && w.nextGroup == v.nextGroup + 1)) && w.nextGroup >= v.nextGroup
    && GroupList(w.groups, w.sizes)
    && |w.groups| == |v.groups| + if HasRoom(v.groups, v.sizes) then 0 else 1
  }

  lemma AcquiredIs(v: View, w: View, g: Gid)
    requires w == v.(groups := w.groups, sizes := w.sizes, nextGroup := w.nextGroup)
    requires w.sizes == v.sizes[g := (if g in v.sizes then v.sizes[g] else 0) + 1]
    requires (g in v.sizes || (g == v.nextGroup && w.nextGroup == v.nextGroup + 1)) && w.nextGroup >= v.nextGroup
    requires GroupList(w.groups, w.sizes)
    requires |w.groups| == |v.groups| + if HasRoom(v.groups, v.sizes) then 0 else 1
    ensures Acquired(v, w, g)
  {
  }

  lemma RegisteredOk(v: View, w: View, s: Sock)
    requires Ok(v, {}) && Acquired(v, w, s.group) && s.key !in v.tree
    requires s.status.Idle? && !s.deletePending && s.pendingEvents == 0
    ensures w == v.(groups := w.groups, sizes := w.sizes, nextGroup := w.nextGroup)
    ensures var i := v.nextSock; var live := |v.socks| + 1;
      && i !in v.socks && i !in v.freed
      && Ok(w.(socks := v.socks[i := s], tree := v.tree[s.key := i], nextSock := i + 1,
               peak := Peak(Max(v.peak.live, live), v.peak.spare && live <= v.peak.live)), {i})
  {
    hide Ok, SocketsOk, GroupList, GroupCount, Fresh, Bounded, Distinct, FullFirst, HasRoom, Max;
    OkAll(v, {});
    RoomInGroups(v);
    var i := v.nextSock;
    FreshNext(v.socks, v.freed, v.sizes, v.nextSock, v.nextGroup, s, w.sizes, w.nextGroup);
    SockAdded(v.socks, v.tree, v.updates, v.deleted, v.outstanding, i, s);
    CountAdded(v.socks, v.sizes, i, s);
    OneMore(|v.socks|, |v.groups|, v.peak.live, v.peak.spare, HasRoom(v.groups, v.sizes));
    OkIs(w.(socks := v.socks[i := s], tree := v.tree[s.key := i], nextSock := i + 1,
            peak := Peak(Max(v.peak.live, |v.socks| + 1), v.peak.spare && |v.socks| + 1 <= v.peak.live)), {i});
  }

  lemma FreshNext(socks: map<Id, Sock>, freed: seq<Id>, sizes: map<Gid, nat>, nextSock: Id, nextGroup: Gid, s: Sock,
                  sizes': map<Gid, nat>, nextGroup': Gid)
    requires Fresh(socks, freed, sizes, nextSock, nextGroup) && nextGroup <= nextGroup'
    requires sizes' == sizes[s.group := (if s.group in sizes then sizes[s.group] else 0) + 1]
    requires s.group in sizes || (s.group == nextGroup && nextGroup' == nextGroup + 1)
    ensures nextSock !in socks && nextSock !in freed
    ensures Fresh(socks[nextSock := s], freed, sizes', nextSock + 1, nextGroup')
  {
    hide Distinct;
  }

  /** A socket more: a spare group, if there is one, is needed now or stays. */
  lemma OneMore(live: nat, groups: nat, livePeak: nat, spare: bool, room: bool)
    requires Bounded(live, groups, livePeak, spare)
    requires if room then live < MAX_GROUP_SIZE * groups else live == MAX_GROUP_SIZE * groups
    ensures Bounded(live + 1, groups + if room then 0 else 1, Max(livePeak, live + 1), spare && live + 1 <= livePeak)
  {
  }

  /** No socket more, but perhaps a group. */
  lemma NoneMore(live: nat, groups: nat, livePeak: nat, spare: bool, room: bool)
    requires Bounded(live, groups, livePeak, spare)
    requires if room then live < MAX_GROUP_SIZE * groups else live == MAX_GROUP_SIZE * groups
    ensures Bounded(live, groups + if room then 0 else 1, livePeak, spare || !room)
    ensures !room ==> !spare && livePeak == live
  {
  }

  lemma ReturnedOk(v: View, w: View, g: Gid)
    requires Ok(v, {}) && Acquired(v, w, g)
    ensures w == v.(groups := w.groups, sizes := w.sizes, nextGroup := w.nextGroup)
    ensures |Without(w.groups, g) + [g]| == |w.groups|
    ensures g in w.sizes && w.sizes[g] > 0 && GroupList(w.groups, w.sizes)
    ensures Ok(w.(groups := Without(w.groups, g) + [g], sizes := w.sizes[g := w.sizes[g] - 1],
                  peak := Peak(v.peak.live, v.peak.spare || !HasRoom(v.groups, v.sizes))), {})
  {
    hide Ok, SocketsOk, GroupList, GroupCount, Fresh, Bounded, Distinct, FullFirst, HasRoom, Without;
    OkAll(v, {});
    RoomInGroups(v);
    CountReturned(v.socks, v.sizes, g);
    var sizes := v.sizes[g := if g in v.sizes then v.sizes[g] else 0];
    assert w.sizes[g := w.sizes[g] - 1] == sizes;
    FreshReturned(v.socks, v.freed, v.sizes, v.nextSock, v.nextGroup, g, w.nextGroup);
    Reduced(w.groups, w.sizes, g);
    NoneMore(|v.socks|, |v.groups|, v.peak.live, v.peak.spare, HasRoom(v.groups, v.sizes));
    OkIs(w.(groups := Without(w.groups, g) + [g], sizes := sizes,
            peak := Peak(v.peak.live, v.peak.spare || !HasRoom(v.groups, v.sizes))), {});
  }

  lemma FreshReturned(socks: map<Id, Sock>, freed: seq<Id>, sizes: map<Gid, nat>, nextSock: Id, nextGroup: Gid, g: Gid,
      nextGroup': Gid)
    requires Fresh(socks, freed, sizes, nextSock, nextGroup) && nextGroup <= nextGroup'
    requires g in sizes || (g == nextGroup && nextGroup' == nextGroup + 1)
    ensures Fresh(socks, freed, sizes[g := if g in sizes then sizes[g] else 0], nextSock, nextGroup')
  {
    hide Distinct;
  }

  /** The last group has room exactly if any group has. */
  lemma RoomInGroups(v: View)
    requires Ok(v, {})
    ensures if HasRoom(v.groups, v.sizes) then |v.socks| < MAX_GROUP_SIZE * |v.groups|
      else |v.socks| == MAX_GROUP_SIZE * |v.groups|
  {
    hide SocketsOk, Fresh, Bounded;
    GroupKeys(v.groups, v.sizes);
    if HasRoom(v.groups, v.sizes) {
      TotalIsSockets(v.socks, v.groups, v.sizes);
      TotalRoom(v.groups, v.sizes);
    } else {
      LastFull(v.socks, v.groups, v.sizes);
    }
  }

  lemma {:induction false} TotalRoom(groups: seq<Gid>, sizes: map<Gid, nat>)
    requires groups != [] && forall g :: g in groups ==> g in sizes && sizes[g] <= MAX_GROUP_SIZE
    requires sizes[groups[|groups| - 1]] < MAX_GROUP_SIZE
    ensures Total(groups, sizes) < MAX_GROUP_SIZE * |groups|
  {
    if |groups| == 1 {
      assert groups[1..] == [];
    } else {
      assert groups[1..][|groups| - 2] == groups[|groups| - 1];
      TotalRoom(groups[1..], sizes);
    }
  }

  /** An attempt that fails after all groups were full breaks the bound. */
  lemma VainAddGrows(v: View, w: View, g: Gid)
    requires Ok(v, {}) && Acquired(v, w, g) && !HasRoom(v.groups, v.sizes)
    ensures !v.peak.spare && |w.groups| == GroupsFor(v.peak.live) + 1 == GroupsFor(|v.socks|) + 1
  {
    RoomInGroups(v);
    hide SocketsOk, GroupCount, GroupList, Fresh;
  }

  lemma SockGone(socks: map<Id, Sock>, tree: map<Socket, Id>, updates: seq<Id>, deleted: seq<Id>, outstanding: set<Id>,
      i: Id)
    requires SocketsOk(socks, tree, updates, deleted, outstanding, {i}) && i in socks
    ensures SocketsOk(socks - {i}, if socks[i].deletePending then tree else tree - {socks[i].key},
                      if socks[i].deletePending then updates else Without(updates, i), Without(deleted, i),
                      outstanding - {i}, {})
    ensures i !in Without(updates, i) && i !in Without(deleted, i)
    ensures !socks[i].deletePending ==> Without(deleted, i) == deleted
  {
    hide Distinct, Watched, Without;
    WithoutMembers(updates, i);
    WithoutMembers(deleted, i);
    if i !in deleted {
      WithoutAbsent(deleted, i);
    }
    var updates' := if socks[i].deletePending then updates else Without(updates, i);
    assert i !in updates';
    assert QueuesOk(socks - {i}, updates', Without(deleted, i), {});
    assert TreeOk(socks - {i}, if socks[i].deletePending then tree else tree - {socks[i].key});
    assert KernelOk(socks - {i}, outstanding - {i});
    assert InterestOk(socks - {i}, updates', {});
    hide QueuesOk, TreeOk, KernelOk, InterestOk;
  }

  lemma SockMarked(socks: map<Id, Sock>, tree: map<Socket, Id>, updates: seq<Id>, deleted: seq<Id>,
      outstanding: set<Id>, i: Id, s: Sock)
    requires SocketsOk(socks, tree, updates, deleted, outstanding, {i}) && i in socks && !socks[i].deletePending
    requires s.deletePending && s.key == socks[i].key
    requires socks[i].status.Idle? <==> s.status.Idle?
    requires !s.status.Pending? ==> s.pendingEvents == 0
    ensures SocketsOk(socks[i := s], tree - {s.key}, Without(updates, i), deleted, outstanding, {i})
    ensures i !in deleted
  {
    hide Distinct, Watched, Without;
    WithoutMembers(updates, i);
    assert QueuesOk(socks[i := s], Without(updates, i), deleted, {i});
    assert TreeOk(socks[i := s], tree - {s.key});
    assert KernelOk(socks[i := s], outstanding);
    assert InterestOk(socks[i := s], Without(updates, i), {i});
    hide QueuesOk, TreeOk, KernelOk, InterestOk;
  }

  /** A registered socket is taken out of the tree and the update queue. */
  lemma MarkedOk(v: View, i: Id, s: Sock)
    requires Ok(v, {i}) && i in v.socks && !v.socks[i].deletePending
    requires s.deletePending && s.key == v.socks[i].key && s.group == v.socks[i].group
    requires v.socks[i].status.Idle? <==> s.status.Idle?
    requires !s.status.Pending? ==> s.pendingEvents == 0
    ensures Ok(v.(socks := v.socks[i := s], tree := v.tree - {s.key}, updates := Without(v.updates, i)), {i})
    ensures i !in v.deleted
  {
    hide SocketsOk, GroupList, GroupCount, Bounded, Fresh;
    SockMarked(v.socks, v.tree, v.updates, v.deleted, v.outstanding, i, s);
    CountSame(v.socks, v.sizes, i, s);
    FreshSame(v, i, s);
  }

  lemma FreshSame(v: View, i: Id, s: Sock)
    requires Fresh(v.socks, v.freed, v.sizes, v.nextSock, v.nextGroup) && i in v.socks
    ensures Fresh(v.socks[i := s], v.freed, v.sizes, v.nextSock, v.nextGroup)
  {
    hide Distinct;
  }

  /** A marked socket waits for its poll to end. */
  lemma EnqueuedOk(v: View, i: Id)
    requires Ok(v, {i}) && i in v.socks && v.socks[i].deletePending && !v.socks[i].status.Idle?
    ensures Ok(v.(deleted := Requested(v.deleted, i)), {})
  {
    if i !in v.deleted {
      AppendMembers(v.deleted, i);
    }
    hide Distinct, Watched, GroupList, GroupCount, Bounded, Fresh;
  }

  lemma CountRemoved(socks: map<Id, Sock>, sizes: map<Gid, nat>, i: Id)
    requires GroupCount(socks, sizes) && i in socks
    ensures socks[i].group in sizes && sizes[socks[i].group] > 0
    ensures GroupCount(socks - {i}, sizes[socks[i].group := sizes[socks[i].group] - 1]) && |socks - {i}| == |socks| - 1
  {
    MembersRemove(socks, i);
    assert i in Members(socks, socks[i].group);
    hide Members;
  }

  lemma CountSame(socks: map<Id, Sock>, sizes: map<Gid, nat>, i: Id, s: Sock)
    requires GroupCount(socks, sizes) && i in socks && s.group == socks[i].group
    ensures GroupCount(socks[i := s], sizes) && |socks[i := s]| == |socks|
  {
    MembersSame(socks, i, s);
    assert socks[i := s].Keys == socks.Keys;
    assert |socks[i := s]| == |socks[i := s].Keys| && |socks| == |socks.Keys|;
    hide Members;
  }

  lemma FreshFreed(socks: map<Id, Sock>, freed: seq<Id>, sizes: map<Gid, nat>, nextSock: Id, nextGroup: Gid, i: Id,
      n: nat)
    requires Fresh(socks, freed, sizes, nextSock, nextGroup) && i in socks && socks[i].group in sizes
    ensures Fresh(socks - {i}, freed + [i], sizes[socks[i].group := n], nextSock, nextGroup)
    ensures i !in freed
  {
    AppendMembers(freed, i);
    hide Distinct;
  }

  /** The port without record i, whose place in its group has been given back. */
  ghost function Freed(v: View, i: Id): View
    requires i in v.socks && v.socks[i].group in v.sizes && v.sizes[v.socks[i].group] > 0
  {
    var g := v.socks[i].group;
    v.(deleted := Without(v.deleted, i), groups := Without(v.groups, g) + [g], sizes := v.sizes[g := v.sizes[g] - 1],
       abandoned := v.abandoned + (if v.socks[i].status.Idle? then {} else {i}), socks := v.socks - {i},
       outstanding := v.outstanding - {i}, freed := v.freed + [i])
  }

  lemma FreedOk(v: View, i: Id)
    requires Ok(v, {i}) && i in v.socks && v.socks[i].deletePending && (v.socks[i].status.Idle? || !v.iocpOpen)
    ensures var g := v.socks[i].group;
      g in v.sizes && v.sizes[g] > 0 && i !in v.freed && Ok(Freed(v, i), {})
  {
    hide Ok, SocketsOk, GroupList, GroupCount, Fresh, Bounded, Without, Distinct, FullFirst;
    OkAll(v, {i});
    var g := v.socks[i].group;
    SockGone(v.socks, v.tree, v.updates, v.deleted, v.outstanding, i);
    CountRemoved(v.socks, v.sizes, i);
    FreshFreed(v.socks, v.freed, v.sizes, v.nextSock, v.nextGroup, i, v.sizes[g] - 1);
    Reduced(v.groups, v.sizes, g);
    FewerSockets(|v.socks|, |v.groups|, v.peak.live, v.peak.spare);
    OkIs(Freed(v, i), {});
  }

  lemma FewerSockets(live: nat, groups: nat, livePeak: nat, spare: bool)
    requires Bounded(live, groups, livePeak, spare)
    ensures live > 0 ==> Bounded(live - 1, groups, livePeak, spare)
  {
  }

  /** The invariant and its parts. */
  lemma OkAll(v: View, x: set<Id>)
    requires Ok(v, x)
    ensures SocketsOk(v.socks, v.tree, v.updates, v.deleted, v.outstanding, x)
    ensures GroupList(v.groups, v.sizes) && GroupCount(v.socks, v.sizes)
    ensures Fresh(v.socks, v.freed, v.sizes, v.nextSock, v.nextGroup) &&
      Bounded(|v.socks|, |v.groups|, v.peak.live, v.peak.spare)
    ensures v.iocpOpen ==> v.abandoned == {}
    ensures forall i :: i in v.socks ==> v.socks[i].group in v.sizes
  {
  }

  lemma OkIs(v: View, x: set<Id>)
    requires SocketsOk(v.socks, v.tree, v.updates, v.deleted, v.outstanding, x)
    requires GroupList(v.groups, v.sizes) && GroupCount(v.socks, v.sizes)
    requires Fresh(v.socks, v.freed, v.sizes, v.nextSock, v.nextGroup) &&
      Bounded(|v.socks|, |v.groups|, v.peak.live, v.peak.spare)
    requires v.iocpOpen ==> v.abandoned == {}
    ensures Ok(v, x)
  {
  }

  // epoll_ctl and the two halves of a round of epoll_wait, with what the system answers; the completions of End are
  // ones the kernel owes. After it the wait goes on with another round if it has found nothing and has time.
  datatype Call =
    | Add(socket: Socket, events: Events, userData: int, valid: bool, createOk: bool, allocOk: bool)
    | Mod(socket: Socket, events: Events, userData: int) | Del(socket: Socket, cancelOk: bool)
    | Begin(answers: seq<Answer>) | End(batch: seq<(Id, Completion)>, time: bool, answers: seq<Answer>)

  class Port {
    var socks: map<Id, Sock>        // the allocated sock_state_t records
    var tree: map<Socket, Id>       // sock_tree
    var updates: seq<Id>            // sock_update_queue
    var deleted: seq<Id>            // sock_deleted_queue
    var groups: seq<Gid>            // poll_group_queue
    var sizes: map<Gid, nat>        // group_size
    var activePolls: nat            // active_poll_count
    var iocpOpen: bool              // iocp_handle != NULL
    var nextSock: Id
    var nextGroup: Gid
    ghost var outstanding: set<Id>  // polls whose completion has not been fed yet
    ghost var freed: seq<Id>        // sock__free, in order
    ghost var abandoned: set<Id>    // those of them whose poll was still outstanding
    ghost var peak: Peak

    ghost function V(): View
      reads this
    {
      View(socks, tree, updates, deleted, groups, sizes, iocpOpen, nextSock, nextGroup, outstanding, freed, abandoned,
           peak)
    }

    ghost predicate ValidBut(x: set<Id>)
      reads this
    {
      Ok(V(), x)
    }

    ghost predicate Valid()
      reads this
    {
      ValidBut({})
    }

    lemma OkNow()
      requires Valid()
      ensures Ok(V(), {})
    {
    }

    /** port_new */
    constructor ()
      ensures Valid() && iocpOpen && socks == map[] && tree == map[] && groups == [] && freed == [] &&
        abandoned == {} && activePolls == 0
      ensures peak == Peak(0, false)
    {
      socks, tree, updates, deleted, groups, sizes := map[], map[], [], [], [], map[];
      activePolls, iocpOpen, nextSock, nextGroup := 0, true, 0, 0;
      outstanding, freed, abandoned, peak := {}, [], {}, Peak(0, false);
    }

    // ----- Poll groups

    /** poll_group_acquire: a group with room, or else a new one. Creating it may fail; and it asserts that the port is
        open. */
    method Acquire(createOk: bool) returns (r: Made<Gid>)
      requires Valid()
      modifies this`groups, this`sizes, this`nextGroup
      ensures r.Asserted? <==> !iocpOpen && !old(HasRoom(groups, sizes))
      ensures r.Refused? <==> iocpOpen && !createOk && !old(HasRoom(groups, sizes))
      ensures !r.Made? ==> groups == old(groups) && sizes == old(sizes) && nextGroup == old(nextGroup)
      ensures r.Made? ==> var g := r.value;
        && sizes == old(sizes)[g := (if g in old(sizes) then old(sizes)[g] else 0) + 1]
        && (g in old(sizes) || (g == old(nextGroup) && nextGroup == old(nextGroup) + 1))
        && nextGroup >= old(nextGroup)
        && GroupList(groups, sizes)
        && |groups| == |old(groups)| + if old(HasRoom(groups, sizes)) then 0 else 1
    {
      hide FullFirst, GroupCount, SocketsOk, Distinct, GroupList;
      GroupKeys(groups, sizes);
      if groups == [] || sizes[groups[|groups| - 1]] >= MAX_GROUP_SIZE {
        if !iocpOpen {
          return Asserted;
        }
        if !createOk {
          return Refused;
        }
        Created(groups, sizes, nextGroup);
        groups, sizes, nextGroup := groups + [nextGroup], sizes[nextGroup := 0], nextGroup + 1;
        GroupKeys(groups, sizes);
      }
      var last := groups[|groups| - 1];
      if sizes[last] + 1 == MAX_GROUP_SIZE {
        Filled(groups, sizes, last);
        groups := [last] + Without(groups, last);
      } else {
        Grown(groups, sizes, last);
      }
      sizes := sizes[last := sizes[last] + 1];
      r := Made(last);
    }

    /** poll_group_release */
    method Release(g: Gid)
      requires GroupList(groups, sizes) && g in sizes && sizes[g] > 0
      modifies this`groups, this`sizes
      ensures sizes == old(sizes)[g := old(sizes)[g] - 1] && groups == Without(old(groups), g) + [g]
      ensures GroupList(groups, sizes) && |groups| == |old(groups)|
    {
      Reduced(groups, sizes, g);
      sizes := sizes[g := sizes[g] - 1];
      assert sizes[g] < MAX_GROUP_SIZE;
      groups := Without(groups, g) + [g];
    }

    // ----- Queues

    /** port_request_socket_update */
    method RequestUpdate(i: Id)
      modifies this`updates
      ensures updates == Requested(old(updates), i)
    {
      if i !in updates {
        updates := updates + [i];
      }
    }

    /** port_cancel_socket_update */
    method CancelUpdate(i: Id)
      modifies this`updates
      ensures updates == Without(old(updates), i)
    {
      updates := Without(updates, i);
    }

    // ----- Sockets

    /** A group that was acquired in vain is released. */
    method GiveBack(g: Gid, ghost v: View)
      requires Ok(v, {}) && Acquired(v, V(), g)
      modifies this`groups, this`sizes, this`peak
      ensures Valid() && |groups| == |old(groups)| &&
        peak == Peak(v.peak.live, v.peak.spare || !HasRoom(v.groups, v.sizes))
    {
      hide Ok, GroupList, Without, HasRoom, Acquired;
      ReturnedOk(v, V(), g);
      peak := Peak(peak.live, peak.spare || !HasRoom(v.groups, v.sizes));
      Release(g);
    }

    /** sock_new: the handle may be bad, and the group, the memory or the key may not be available. */
    method SockNew(socket: Socket, valid: bool, createOk: bool, allocOk: bool) returns (r: Made<Id>)
      requires Valid()
      modifies this`socks, this`tree, this`groups, this`sizes, this`nextSock, this`nextGroup, this`peak
      ensures ValidBut(if r.Made? then {r.value} else {})
      ensures r.Asserted? <==> valid && !iocpOpen && !old(HasRoom(groups, sizes))
      ensures r.Made? <==>
        valid && allocOk && socket !in old(tree) && (old(HasRoom(groups, sizes)) || (iocpOpen && createOk))
      ensures !r.Made? ==> socks == old(socks) && tree == old(tree)
      ensures r.Asserted? ==> V() == old(V())
      ensures r.Made? ==>
        && r.value !in old(socks) && r.value !in freed && r.value in socks
        && socks == old(socks)[r.value := socks[r.value]] && tree == old(tree)[socket := r.value]
        && socks[r.value] == Sock(socket, socks[r.value].group, 0, 0, 0, Idle, false)
      ensures peak == NextPeak(old(peak), |old(socks)|, r.Made?,
        NewGroup(valid, createOk, iocpOpen, old(HasRoom(groups, sizes))))
      ensures |groups| == |old(groups)| + if NewGroup(valid, createOk, iocpOpen, old(HasRoom(groups, sizes))) then 1
        else 0
    {
      hide Ok, GroupList, Without, HasRoom, Acquired;
      PeakOk(V());
      if !valid {
        return Refused;
      }
      ghost var v := V();
      var group := Acquire(createOk);
      if !group.Made? {
        return if group.Asserted? then Asserted else Refused;
      }
      var g := group.value;
      assert Acquired(v, V(), g) by {
        AcquiredIs(v, V(), g);
      }
      if !allocOk || socket in tree {
        // err1 and err2: the record, if there is one, is freed before anybody knows it
        GiveBack(g, v);
        return Refused;
      }
      var i := Register(socket, g, v);
      return Made(i);
    }

    /** The last part of sock_new and port_register_socket. */
    method Register(socket: Socket, g: Gid, ghost v: View) returns (i: Id)
      requires Ok(v, {}) && Acquired(v, V(), g) && socket !in v.tree
      modifies this`socks, this`tree, this`nextSock, this`peak
      ensures ValidBut({i}) && i !in v.socks && i !in v.freed
      ensures socks == v.socks[i := Sock(socket, g, 0, 0, 0, Idle, false)] && tree == v.tree[socket := i]
      ensures peak == NextPeak(v.peak, |v.socks|, true, false)
    {
      hide Ok, Acquired;
      i := nextSock;
      var s := Sock(socket, g, 0, 0, 0, Idle, false);
      RegisteredOk(v, V(), s);
      nextSock := nextSock + 1;
      peak := Peak(Max(peak.live, |v.socks| + 1), peak.spare && |v.socks| + 1 <= peak.live);
      socks := socks[i := s];
      tree := tree[socket := i];
    }

    /** sock__cancel_poll; the cancellation may fail, and the completion is due either way. */
    method CancelPoll(i: Id, cancelOk: bool) returns (ok: bool)
      requires i in socks && socks[i].status.Pending?
      modifies this`socks
      ensures ok == cancelOk
      ensures socks ==
        if cancelOk then old(socks)[i := old(socks)[i].(status := Cancelled, pendingEvents := 0)] else old(socks)
    {
      if cancelOk {
        socks := socks[i := socks[i].(status := Cancelled, pendingEvents := 0)];
      }
      ok := cancelOk;
    }

    /** The last part of sock__delete: the record is freed. */
    method Free(i: Id)
      requires ValidBut({i}) && i in socks && socks[i].deletePending
      requires socks[i].status.Idle? || !iocpOpen
      modifies this`socks, this`deleted, this`groups, this`sizes, this`outstanding, this`freed, this`abandoned
      ensures Valid() && i !in old(freed)
      ensures socks == old(socks) - {i} && freed == old(freed) + [i]
      ensures deleted == Without(old(deleted), i)
      ensures outstanding == old(outstanding) - {i}
      ensures abandoned == old(abandoned) + (if old(socks)[i].status.Idle? then {} else {i})
    {
      hide Ok, Without, GroupList;
      FreedOk(V(), i);
      OkGroups(V(), {i});
      Release(socks[i].group);
      Drop(i);
    }

    /** The record leaves the queue of the deleted ones and is given back to the allocator. */
    method Drop(i: Id)
      requires i in socks
      modifies this`socks, this`deleted, this`outstanding, this`freed, this`abandoned
      ensures socks == old(socks) - {i} && deleted == Without(old(deleted), i) && freed == old(freed) + [i]
      ensures outstanding == old(outstanding) - {i}
      ensures abandoned == old(abandoned) + (if old(socks)[i].status.Idle? then {} else {i})
    {
      var s := socks[i];
      deleted, socks := Without(deleted, i), socks - {i};
      abandoned, outstanding, freed := abandoned + if s.status.Idle? then {} else {i}, outstanding - {i}, freed + [i];
    }

    /** The first part of sock__delete: the poll is cancelled, and the socket leaves the tree and the queue of
        updates. */
    method MarkDeleted(i: Id, cancelOk: bool)
      requires ValidBut({i}) && i in socks && !socks[i].deletePending
      modifies this`socks, this`tree, this`updates
      ensures ValidBut({i}) && i in socks && socks == old(socks)[i := socks[i]] && socks[i].deletePending
      ensures socks[i].key == old(socks)[i].key && (socks[i].status.Idle? <==> old(socks)[i].status.Idle?)
      ensures tree == old(tree) - {old(socks)[i].key} && updates == Without(old(updates), i)
    {
      hide Ok, Without;
      if socks[i].status.Pending? {
        var _ := CancelPoll(i, cancelOk);
      }
      ghost var v := V();
      var s := socks[i];
      CancelUpdate(i);
      tree := tree - {s.key};
      socks := socks[i := s.(deletePending := true)];
      DeletedOk(old(V()), v, i);
    }

    /** sock__delete. A poll that is still due keeps the record alive, unless the port is being deleted. */
    method SockDelete(i: Id, force: bool, cancelOk: bool)
      requires ValidBut({i}) && i in socks && (force ==> !iocpOpen)
      modifies this`socks, this`tree, this`updates, this`deleted, this`groups, this`sizes, this`outstanding, this`freed,
          this`abandoned
      ensures Valid()
      ensures if force || old(socks)[i].status.Idle?
        then socks == old(socks) - {i} && freed == old(freed) + [i] && i !in old(freed)
        else i in socks && socks == old(socks)[i := socks[i]] && socks[i].deletePending && freed == old(freed)
             && socks[i].key == old(socks)[i].key && !socks[i].status.Idle?
      ensures if old(socks)[i].deletePending then tree == old(tree) && updates == old(updates)
        else tree == old(tree) - {old(socks)[i].key} && updates == Without(old(updates), i)
      ensures outstanding == (if force then old(outstanding) - {i} else old(outstanding))
      ensures !force ==> abandoned == old(abandoned)
    {
      hide Ok, Without, Requested;
      if !socks[i].deletePending {
        MarkDeleted(i, cancelOk);
      }
      if force || socks[i].status.Idle? {
        IdleNotDue(V(), i);
        Free(i);
      } else {
        EnqueuedOk(V(), i);
        deleted := Requested(deleted, i);
      }
    }

    /** sock_set_event */
    method SetEvent(i: Id, events: Events, userData: int)
      requires ValidBut({i}) && i in socks && !socks[i].deletePending
      modifies this`socks, this`updates
      ensures Valid()
      ensures socks == old(socks)[i := old(socks)[i].(userEvents := events | EPOLLERR | EPOLLHUP, userData := userData)]
      ensures updates == old(updates) || updates == Requested(old(updates), i)
    {
      hide Ok, Requested, Covered;
      EventSetOk(V(), i, events, userData);
      socks := socks[i := socks[i].(userEvents := events | EPOLLERR | EPOLLHUP, userData := userData)];
      if !Covered(socks[i].userEvents, socks[i].pendingEvents) {
        RequestUpdate(i);
      }
    }

    /** sock_update: submits or cancels the poll of a socket, or leaves it alone. */
    method SockUpdate(i: Id, cancelOk: bool, poll: PollResult) returns (ok: bool)
      requires Valid() && i in updates
      modifies this`socks, this`tree, this`updates, this`deleted, this`groups, this`sizes, this`outstanding, this`freed,
          this`abandoned
      ensures Valid()
      ensures old(outstanding) <= outstanding && abandoned == old(abandoned)
      ensures i in old(socks) && ok == UpdateSucceeds(old(socks)[i], cancelOk, poll)
      ensures if ok then updates == Without(old(updates), i) else V() == old(V())
      ensures ok && !Dropped(old(socks)[i], poll) ==>
        && i in socks && socks == old(socks)[i := socks[i]] && tree == old(tree) && freed == old(freed)
        && Watched(socks[i], false) && PollOf(old(socks)[i], socks[i])
      ensures ok && Dropped(old(socks)[i], poll) ==>
        socks == old(socks) - {i} && freed == old(freed) + [i] && tree == old(tree) - {old(socks)[i].key}
    {
      hide Ok, Without, Covered;
      UpdateFacts(V(), i);
      assert !socks[i].deletePending;
      var s := socks[i];
      if s.status.Pending? && Covered(s.userEvents, s.pendingEvents) {
      } else if s.status.Pending? {
        ok := CancelPoll(i, cancelOk);
        if !ok {
          return;
        }
      } else if s.status.Idle? {
        match poll {
          case Submitted =>
          case InvalidHandle =>
            SockDelete(i, false, cancelOk);
            return true;
          case OtherError =>
            return false;
        }
        socks := socks[i := s.(status := Pending, pendingEvents := s.userEvents)];
        outstanding := outstanding + {i};
      }
      UpdatedOk(old(V()), i, socks[i]);
      CancelUpdate(i);
      ok := true;
    }

    /** sock_feed_event: the poll of a socket has ended. */
    method FeedEvent(i: Id, c: Completion) returns (r: Option<Report>)
      requires Valid() && i in outstanding
      modifies this`socks, this`tree, this`updates, this`deleted, this`groups, this`sizes, this`outstanding, this`freed,
          this`abandoned
      ensures Valid() && outstanding == old(outstanding) - {i} && i in old(socks) && r == Fed(old(socks)[i], c)
      ensures abandoned == old(abandoned)
      ensures var s := old(socks)[i];
        if s.deletePending || Closed(c) then
          r.None? && socks == old(socks) - {i} && freed == old(freed) + [i]
        else
          && freed == old(freed) && tree == old(tree) && i in updates
          && socks == old(socks)[i := AfterFeed(s, r.Some?)]
    {
      hide Ok, Requested, FromAfd, Closed, Filtered;
      FedOk(V(), i);
      var s := socks[i];
      outstanding := outstanding - {i};
      socks := socks[i := s.(status := Idle, pendingEvents := 0)];
      if s.deletePending || Closed(c) {
        assert old(socks)[i := socks[i]] - {i} == old(socks) - {i};
        SockDelete(i, false, true);
        return None;
      }
      RequeuedOk(V(), i, 0);
      RequeuedOk(V(), i, s.userEvents);
      RequestUpdate(i);
      RequestedIn(old(updates), i);
      var events := Filtered(s, c);
      if events == 0 {
        return None;
      }
      if s.userEvents & EPOLLONESHOT != 0 {
        socks := socks[i := socks[i].(userEvents := 0)];
      }
      r := Some(Report(events, s.userData));
    }

    // ----- The port

    /** port__update_events; every update of a socket removes it from the queue. Only a refusal of the kernel stops
        it. */
    method UpdateEvents(answers: seq<Answer>) returns (ok: bool)
      requires Valid()
      modifies this`socks, this`tree, this`updates, this`deleted, this`groups, this`sizes, this`outstanding, this`freed,
          this`abandoned
      ensures Valid() && old(outstanding) <= outstanding && abandoned == old(abandoned)
      ensures Survive(old(socks), socks, freed)
      ensures ok <==> updates == []
      ensures ok ==> forall i :: i in socks && !socks[i].deletePending ==> Watched(socks[i], false)
      ensures |old(updates)| <= |answers| && (forall n :: 0 <= n < |answers| ==> Obliging(answers[n])) ==> ok
    {
      hide Ok, Watched, Without, Covered, Survive, PollOf;
      AllSurvive(socks, freed);
      var n := 0;
      while updates != []
        invariant Valid() && old(outstanding) <= outstanding && n + |updates| <= |old(updates)|
        invariant abandoned == old(abandoned) && Survive(old(socks), socks, freed)
        decreases |updates|
      {
        ghost var was, freed0, i := socks, freed, updates[0];
        var a := AnswerAt(answers, n);
        Shrinks(V(), updates[0]);
        ok := SockUpdate(updates[0], a.cancelOk, a.poll);
        if !ok {
          return;
        }
        OneUpdated(old(socks), was, socks, freed0, freed, i);
        n := n + 1;
      }
      AllWatched(V());
      ok := true;
    }

    /** port__update_events_if_polling */
    method UpdateEventsIfPolling()
      requires Valid()
      modifies this`socks, this`tree, this`updates, this`deleted, this`groups, this`sizes, this`outstanding, this`freed,
          this`abandoned
      ensures Valid() && old(outstanding) <= outstanding && abandoned == old(abandoned)
      ensures Survive(old(socks), socks, freed)
      ensures activePolls == 0 ==>
        socks == old(socks) && tree == old(tree) && updates == old(updates) && groups == old(groups)
    {
      AllSurvive(socks, freed);
      if activePolls > 0 {
        var answers: seq<Answer> := *;
        var _ := UpdateEvents(answers);
      }
    }

    /** port__ctl_add. While a thread waits in epoll_wait, updates are made at once, which may drop sockets that turn
        out closed. */
    method CtlAdd(socket: Socket, events: Events, userData: int, valid: bool, createOk: bool, allocOk: bool)
      returns (ok: bool, asserted: bool, ghost id: Id)
      requires Valid()
      modifies this`socks, this`tree, this`updates, this`deleted, this`groups, this`sizes, this`nextSock, this`nextGroup
      modifies this`outstanding, this`freed, this`abandoned, this`peak
      ensures Valid() && old(outstanding) <= outstanding && abandoned == old(abandoned)
      ensures asserted <==> valid && !iocpOpen && !old(HasRoom(groups, sizes))
      ensures ok <==>
        valid && allocOk && socket !in old(tree) && (old(HasRoom(groups, sizes)) || (iocpOpen && createOk))
      ensures !ok ==>
        socks == old(socks) && tree == old(tree) && updates == old(updates) && outstanding == old(outstanding)
      ensures asserted ==> V() == old(V())
      ensures |groups| == |old(groups)| + if NewGroup(valid, createOk, iocpOpen, old(HasRoom(groups, sizes))) then 1
        else 0
      ensures peak == NextPeak(old(peak), |old(socks)|, ok,
        NewGroup(valid, createOk, iocpOpen, old(HasRoom(groups, sizes))))
      ensures ok ==>
        id !in old(socks) && id !in old(freed) && Enlisted(socks, tree, freed, id, socket, events, userData)
      ensures activePolls == 0 ==> |socks| == |old(socks)| + if ok then 1 else 0
      ensures ok && activePolls == 0 ==> id in socks && tree == old(tree)[socket := id]
    {
      hide Ok, HasRoom, Requested, ValidBut, Survive, NewGroup;
      var r := SockNew(socket, valid, createOk, allocOk);
      if !r.Made? {
        return false, r.Asserted?, 0;
      }
      id := r.value;
      SetEvent(r.value, events, userData);
      ghost var v := V();
      OkNow();
      UpdateEventsIfPolling();
      OkNow();
      GroupsCounted(v);
      GroupsCounted(V());
      hide Enlisted, GroupsFor;
      StillEnlisted(v, V(), id, socket, events, userData);
      ok, asserted := true, false;
    }

    /** port__ctl_mod */
    method CtlMod(socket: Socket, events: Events, userData: int) returns (ok: bool)
      requires Valid()
      modifies this`socks, this`tree, this`updates, this`deleted, this`groups, this`sizes, this`outstanding, this`freed,
          this`abandoned
      ensures Valid() && old(outstanding) <= outstanding && abandoned == old(abandoned)
      ensures ok <==> socket in old(tree)
      ensures !ok ==> V() == old(V())
      ensures ok ==> Enlisted(socks, tree, freed, old(tree)[socket], socket, events, userData)
      ensures ok && activePolls == 0 ==>
        && tree == old(tree) && tree[socket] in old(socks)
        && socks == old(socks)[tree[socket] :=
             old(socks)[tree[socket]].(userEvents := events | EPOLLERR | EPOLLHUP, userData := userData)]
    {
      hide Ok, Requested, Survive;
      if socket !in tree {
        return false;
      }
      Registered(V(), socket);
      ghost var id := tree[socket];
      SetEvent(tree[socket], events, userData);
      ghost var v := V();
      UpdateEventsIfPolling();
      StillEnlisted(v, V(), id, socket, events, userData);
      hide Enlisted;
      ok := true;
    }

    /** port__ctl_del */
    method CtlDel(socket: Socket, cancelOk: bool) returns (ok: bool)
      requires Valid()
      modifies this`socks, this`tree, this`updates, this`deleted, this`groups, this`sizes, this`outstanding, this`freed,
          this`abandoned
      ensures Valid() && outstanding == old(outstanding) && abandoned == old(abandoned)
      ensures ok <==> socket in old(tree)
      ensures !ok ==> V() == old(V())
      ensures ok ==> tree == old(tree) - {socket} && old(tree)[socket] in old(socks)
      ensures ok ==> var i := old(tree)[socket];
        if old(socks)[i].status.Idle? then socks == old(socks) - {i} && freed == old(freed) + [i]
        else i in socks && socks == old(socks)[i := socks[i]] && socks[i].deletePending && freed == old(freed)
    {
      hide Ok, Without;
      if socket !in tree {
        return false;
      }
      Registered(V(), socket);
      SockDelete(tree[socket], false, cancelOk);
      ok := true;
    }

    /** port__poll up to the point where the lock is released. */
    method PollBegin(answers: seq<Answer>) returns (ok: bool)
      requires Valid()
      modifies this`socks, this`tree, this`updates, this`deleted, this`groups, this`sizes, this`outstanding, this`freed,
          this`abandoned
      modifies this`activePolls
      ensures Valid() && old(outstanding) <= outstanding && abandoned == old(abandoned)
      ensures activePolls == old(activePolls) + if ok then 1 else 0
      ensures ok ==> updates == [] && forall i :: i in socks && !socks[i].deletePending ==> Watched(socks[i], false)
      ensures |old(updates)| <= |answers| && (forall n :: 0 <= n < |answers| ==> Obliging(answers[n])) ==> ok
    {
      hide Ok, Watched;
      ok := UpdateEvents(answers);
      if ok {
        activePolls := activePolls + 1;
      }
    }

    /** port__poll from there on: the completions that the kernel has handed out are fed, at most one report for
        each. */
    method PollEnd(batch: seq<(Id, Completion)>) returns (reports: seq<Report>)
      requires Valid() && activePolls > 0
      requires forall k :: 0 <= k < |batch| ==> batch[k].0 in outstanding
      requires forall j, k :: 0 <= j < k < |batch| ==> batch[j].0 != batch[k].0
      modifies this`socks, this`tree, this`updates, this`deleted, this`groups, this`sizes, this`outstanding, this`freed,
          this`abandoned
      modifies this`activePolls
      ensures Valid() && activePolls == old(activePolls) - 1 && abandoned == old(abandoned)
      ensures forall k :: 0 <= k < |batch| ==> batch[k].0 in old(socks) && batch[k].0 !in outstanding
      ensures reports == BatchReports(old(socks), batch)
    {
      hide Ok, Closed, Reportable, AfterFeed, Fed, BatchReports;
      DueInSocks(V());
      ReportsEnd(socks, batch);
      activePolls := activePolls - 1;
      reports := [];
      ghost var before := socks;
      var n := 0;
      while n < |batch|
        invariant n <= |batch| && Valid() && activePolls == old(activePolls) - 1 && abandoned == old(abandoned)
        invariant forall k :: n <= k < |batch| ==>
          batch[k].0 in outstanding && batch[k].0 in socks && socks[batch[k].0] == before[batch[k].0]
        invariant forall k :: 0 <= k < n ==> batch[k].0 !in outstanding
        invariant reports + BatchReports(before, batch[n..]) == BatchReports(before, batch)
      {
        var r := FeedEvent(batch[n].0, batch[n].1);
        ReportsNext(before, batch, n);
        if r.Some? {
          reports := reports + [r.value];
        }
        n := n + 1;
      }
    }

    /** port_wait begins a round; if it cannot, it is over, and leaves the updates to the other threads that wait. */
    method Round(answers: seq<Answer>)
      requires Valid()
      modifies this`socks, this`tree, this`updates, this`deleted, this`groups, this`sizes, this`outstanding, this`freed,
          this`abandoned
      modifies this`activePolls
      ensures Valid() && abandoned == old(abandoned)
    {
      var began := PollBegin(answers);
      if !began {
        UpdateEventsIfPolling();
      }
    }

    /** Any calls, in the order in which they get hold of the lock, whether the port is open or has been closed; a
        failed assertion ends the run. No record is freed while its poll is outstanding. */
    method Serve(calls: seq<Call>) returns (asserted: bool, ghost h: seq<Addition>)
      requires Valid()
      modifies this`socks, this`tree, this`updates, this`deleted, this`groups, this`sizes, this`nextSock, this`nextGroup
      modifies this`outstanding, this`freed, this`abandoned, this`peak, this`activePolls
      ensures Valid() && abandoned == old(abandoned)
      ensures asserted ==>
        !iocpOpen && !HasRoom(groups, sizes) && exists k :: 0 <= k < |calls| && calls[k].Add? && calls[k].valid
      ensures peak == PeaksFrom(old(peak), h) && |groups| <= GroupsFor(peak.live + 1)
      ensures !old(peak).spare ==> (|groups| <= GroupsFor(peak.live) <==> !exists k: nat :: SpareSince(old(peak), h, k))
    {
      hide Ok, HasRoom, Enlisted, GroupsFor, NextPeak, PeaksFrom, SpareSince, NewGroup;
      asserted, h := false, [];
      PeaksNone(peak);
      var n := 0;
      while n < |calls|
        invariant 0 <= n <= |calls| && Valid() && abandoned == old(abandoned) && !asserted &&
          peak == PeaksFrom(old(peak), h)
      {
        match calls[n] {
          case Add(socket, events, userData, valid, createOk, allocOk) =>
            ghost var live, room := |socks|, HasRoom(groups, sizes);
            var ok, failed, _ := CtlAdd(socket, events, userData, valid, createOk, allocOk);
            PeaksNext(old(peak), h, Addition(live, ok, NewGroup(valid, createOk, iocpOpen, room)));
            h := h + [Addition(live, ok, NewGroup(valid, createOk, iocpOpen, room))];
            if failed {
              asserted := true;
              break;
            }
          case Mod(socket, events, userData) =>
            var _ := CtlMod(socket, events, userData);
          case Del(socket, cancelOk) =>
            var _ := CtlDel(socket, cancelOk);
          case Begin(answers) =>
            Round(answers);
          case End(batch, time, answers) =>
            DueInSocks(V());
            if activePolls > 0 && (forall k :: 0 <= k < |batch| ==>
              batch[k].0 in socks && !socks[batch[k].0].status.Idle?)
               && forall j, k :: 0 <= j < k < |batch| ==> batch[j].0 != batch[k].0 {
              var reports := PollEnd(batch);
              if reports == [] && time {
                Round(answers);
              } else {
                UpdateEventsIfPolling();
              }
            }
        }
        n := n + 1;
      }
      BoundIffNoSpare(V());
      if !old(peak).spare {
        SpareExactly(old(peak), h);
      }
    }

    /** port_close */
    method Close()
      requires Valid()
      modifies this`iocpOpen
      ensures Valid() && !iocpOpen
    {
      ClosedOk(V());
      hide Ok;
      iocpOpen := false;
    }

    /** port_delete: every record that was ever made has been freed, once, and the assertions about groups and queue
        hold. */
    method Delete()
      requires Valid() && !iocpOpen
      modifies this`socks, this`tree, this`updates, this`deleted, this`groups, this`sizes, this`outstanding, this`freed,
          this`abandoned
      ensures socks == map[] && tree == map[] && updates == [] && deleted == [] && groups == [] && Distinct(freed)
      ensures forall i: Id :: i in freed <==> i < nextSock
      ensures forall i :: i in old(socks) ==> i in freed && i !in old(freed)
      ensures old(freed) <= freed
    {
      hide Ok, Without;
      OldFreed(V());
      while tree != map[]
        invariant Valid() && old(freed) <= freed
        invariant forall i :: i in old(socks) ==> i in socks || i in freed
        decreases tree.Keys
      {
        var k :| k in tree;
        var cancelOk: bool := *;
        Registered(V(), k);
        SockDelete(tree[k], true, cancelOk);
      }
      while deleted != []
        invariant Valid() && old(freed) <= freed && tree == map[]
        invariant forall i :: i in old(socks) ==> i in socks || i in freed
        decreases socks.Keys
      {
        var cancelOk: bool := *;
        WaitsForDeletion(V(), deleted[0]);
        SockDelete(deleted[0], true, cancelOk);
      }
      NothingLeft(V());
      while groups != []
        invariant forall g :: g in groups ==> g in sizes && sizes[g] == 0
        invariant socks == map[] && tree == map[] && updates == [] && deleted == [] && old(freed) <= freed &&
          Distinct(freed)
        invariant forall i: Id :: i in freed <==> i < nextSock
        invariant forall i :: i in old(socks) ==> i in freed && i !in old(freed)
      {
        var g := groups[0];
        assert sizes[g] == 0;
        groups := groups[1..];
      }
      assert updates == [];
    }
  }

  lemma Shrinks(v: View, i: Id)
    requires Ok(v, {}) && i in v.updates
    ensures |Without(v.updates, i)| < |v.updates|
  {
    WithoutMembers(v.updates, i);
  }

  lemma AllWatched(v: View)
    requires Ok(v, {}) && v.updates == []
    ensures forall i :: i in v.socks && !v.socks[i].deletePending ==> Watched(v.socks[i], false)
  {
  }

  lemma Registered(v: View, k: Socket)
    requires Ok(v, {}) && k in v.tree
    ensures Ok(v, {v.tree[k]}) && v.tree[k] in v.socks && !v.socks[v.tree[k]].deletePending &&
      v.socks[v.tree[k]].key == k
  {
  }

  lemma WaitsForDeletion(v: View, i: Id)
    requires Ok(v, {}) && i in v.deleted
    ensures Ok(v, {i}) && i in v.socks && v.socks[i].deletePending
  {
  }

  lemma ClosedOk(v: View)
    requires Ok(v, {})
    ensures Ok(v.(iocpOpen := false), {})
  {
    hide SocketsOk, GroupList, GroupCount, Fresh;
  }

  lemma OldFreed(v: View)
    requires Ok(v, {})
    ensures forall i :: i in v.socks ==> i !in v.freed
  {
  }

  lemma FirstIn<T>(q: seq<T>)
    ensures q != [] ==> q[0] in q
  {
  }

  lemma NothingLeft(v: View)
    requires Ok(v, {}) && v.tree == map[] && v.deleted == []
    ensures v.socks == map[] && v.updates == [] && Distinct(v.freed) && forall i: Id :: i in v.freed <==> i < v.nextSock
    ensures forall g :: g in v.groups ==> g in v.sizes && v.sizes[g] == 0
  {
    assert v.socks.Keys == {};
    assert v.socks == map[];
    FirstIn(v.updates);
    forall g | g in v.groups ensures g in v.sizes && v.sizes[g] == 0 {
      assert Members(v.socks, g) == {};
    }
  }

  /** A port from creation to deletion, with calls before and after port_close: unless an addition to the closed port
      fails the assertion, deleting it ends, its own assertions hold, and every record that was made is freed once. */
  method Lifetime(calls: seq<Call>, late: seq<Call>) returns (port: Port, asserted: bool)
    ensures fresh(port)
    ensures asserted ==> exists k :: 0 <= k < |late| && late[k].Add? && late[k].valid
    ensures !asserted ==> port.socks == map[] && port.updates == [] && port.deleted == [] && port.groups == []
    ensures !asserted ==> Distinct(port.freed) && forall i: Id :: i in port.freed <==> i < port.nextSock
  {
    hide Ok, HasRoom, GroupsFor;
    port := new Port();
    var _, _ := port.Serve(calls);
    port.Close();
    var failed, _ := port.Serve(late);
    asserted := failed;
    if !asserted {
      port.Delete();
    }
  }

  /** The assertion can fail: the first socket is added to a port that another thread has closed just before. */
  method LateAddExample(socket: Socket, events: Events) returns (port: Port, asserted: bool)
    ensures fresh(port) && asserted && port.socks == map[] && !port.iocpOpen
  {
    hide Ok;
    port := new Port();
    port.Close();
    var ok, failed, id := port.CtlAdd(socket, events, 0, true, true, true);
    asserted := failed;
  }

  /** A spare group does come about: 32 sockets, and then one of them again. */
  method VainAddExample() returns (port: Port)
    ensures fresh(port) && port.Valid() && port.peak == Peak(32, true) && |port.socks| == 32
    ensures |port.groups| == 2 == GroupsFor(port.peak.live) + 1
  {
    hide Ok, HasRoom, Enlisted;
    port := new Port();
    var k := 0;
    while k < 32
      invariant k <= 32 && port.Valid() && fresh(port) && port.iocpOpen && port.activePolls == 0
      invariant |port.socks| == k && port.peak == Peak(k, false) && forall i :: i in port.tree ==> i < k
      invariant k > 0 ==> 0 in port.tree
    {
      var _, _, _ := port.CtlAdd(k, 0, 0, true, true, true);
      k := k + 1;
    }
    OneFullGroup(port.V());
    var _, _, _ := port.CtlAdd(0, 0, 0, true, true, true);
  }

  lemma OneFullGroup(v: View)
    requires Ok(v, {}) && |v.socks| == 32 && v.peak == Peak(32, false)
    ensures |v.groups| == 1 && !HasRoom(v.groups, v.sizes)
  {
    TotalIsSockets(v.socks, v.groups, v.sizes);
    if v.groups != [] {
      var rest := v.groups[1..];
      assert rest == [];
      assert Total(rest, v.sizes) == 0;
      assert v.groups[0] in v.groups;
    }
    hide SocketsOk;
  }

  /** An update fails only if the kernel refuses to cancel a poll that has to be cancelled, or to start one. */
  predicate UpdateSucceeds(s: Sock, cancelOk: bool, poll: PollResult) {
    match s.status
    case Idle => !poll.OtherError?
    case Pending => Covered(s.userEvents, s.pendingEvents) || cancelOk
    case Cancelled => true
  }

  /** The socket turns out to be closed when a poll is submitted for it. */
  predicate Dropped(s: Sock, poll: PollResult) { s.status.Idle? && poll.InvalidHandle? }

  /** The poll of a socket before and after an update: no poll is started over another one, and none is ended that
      covers all. */
  predicate PollOf(s: Sock, t: Sock) {
    && t == s.(status := t.status, pendingEvents := t.pendingEvents)
    && (s.status.Idle? ==> t.status.Pending? && t.pendingEvents == s.userEvents)
    && (!s.status.Idle? ==> t == s || (t.status.Cancelled? && !Covered(s.userEvents, s.pendingEvents)))
  }

  /** Updates change the polls of sockets and free those that turn out closed. */
  predicate Survive(before: map<Id, Sock>, after: map<Id, Sock>, freed: seq<Id>) {
    forall i :: i in before ==>
      if i in after then after[i] == before[i].(status := after[i].status, pendingEvents := after[i].pendingEvents)
        else i in freed
  }

  lemma AllSurvive(socks: map<Id, Sock>, freed: seq<Id>)
    ensures Survive(socks, socks, freed)
  {
  }

  lemma OneUpdated(before: map<Id, Sock>, was: map<Id, Sock>, after: map<Id, Sock>, freed0: seq<Id>,
                   freed: seq<Id>, i: Id)
    requires i in was && (forall j :: j in was && j != i ==> j in after && after[j] == was[j])
    requires if i in after then PollOf(was[i], after[i]) else i in freed
    requires Survive(before, was, freed0) && freed0 <= freed && after.Keys <= was.Keys
    ensures Survive(before, after, freed)
  {
  }

  /** The socket has its record in the tree, with the mask and data asked for; unless it was freed because it turned out
      closed. */
  predicate Enlisted(socks: map<Id, Sock>, tree: map<Socket, Id>, freed: seq<Id>, id: Id, socket: Socket,
      events: Events, userData: int) {
    if id in socks then
      && socket in tree && tree[socket] == id
      && socks[id].key == socket && socks[id].userEvents == events | EPOLLERR
        | EPOLLHUP && socks[id].userData == userData
    else id in freed
  }

  lemma StillEnlisted(v: View, w: View, id: Id, socket: Socket, events: Events, userData: int)
    requires Ok(v, {}) && Ok(w, {}) && id in v.socks && !v.socks[id].deletePending && v.socks[id].key == socket
    requires v.socks[id].userEvents == events | EPOLLERR | EPOLLHUP && v.socks[id].userData == userData
    requires Survive(v.socks, w.socks, w.freed)
    ensures Enlisted(w.socks, w.tree, w.freed, id, socket, events, userData)
  {
    hide GroupList, GroupCount, Bounded, Watched, Covered;
  }

  /** An addition keeps the bound exactly if it succeeds or needs no new group. */
  lemma AdditionKeepsBound(v: View, w: View, a: Addition)
    requires Ok(v, {}) && Ok(w, {}) && |v.groups| <= GroupsFor(v.peak.live)
    requires a.live == |v.socks| && w.peak == NextPeak(v.peak, a.live, a.added, a.newGroup)
    ensures |w.groups| <= GroupsFor(w.peak.live) <==> !Vain(a)
  {
    BoundIffNoSpare(v);
    BoundIffNoSpare(w);
    hide Ok, GroupsFor;
  }

  lemma PeaksNone(p: Peak)
    ensures PeaksFrom(p, []) == p
  {
  }

  lemma GroupsCounted(v: View)
    requires Ok(v, {})
    ensures |v.groups| == GroupsFor(v.peak.live) + if v.peak.spare then 1 else 0
  {
  }

  lemma PeakOk(v: View)
    requires Ok(v, {})
    ensures |v.socks| <= v.peak.live
  {
  }

  // What the kernel answers to the calls for one update.
  datatype Answer = Answer(cancelOk: bool, poll: PollResult)

  function AnswerAt(answers: seq<Answer>, n: nat): Answer {
    if n < |answers| then answers[n] else Answer(false, OtherError)
  }

  predicate Obliging(a: Answer) { a.cancelOk && !a.poll.OtherError? }

  /** The poll reported that the socket itself was closed. */
  predicate Closed(c: Completion) { c.Reported? && c.events & LOCAL_CLOSE != 0 }

  /** The events that happened, of those the user asked for. */
  function Filtered(s: Sock, c: Completion): Events {
    s.userEvents & (match c
      case CancelledByUs => 0
      case Failed => EPOLLERR
      case NoHandles => 0
      case Reported(e) => FromAfd(e))
  }

  function Reportable(s: Sock, c: Completion): Option<Report> {
    if Filtered(s, c) == 0 then None else Some(Report(Filtered(s, c), s.userData))
  }

  /** The report about a socket, unless it has been deleted or closed. */
  function Fed(s: Sock, c: Completion): Option<Report> {
    if s.deletePending || Closed(c) then None else Reportable(s, c)
  }

  /** The reports about a batch of completions, in its order. */
  function BatchReports(socks: map<Id, Sock>, batch: seq<(Id, Completion)>): seq<Report>
    requires forall k :: 0 <= k < |batch| ==> batch[k].0 in socks
  {
    if batch == [] then []
    else
      var r := Fed(socks[batch[0].0], batch[0].1);
      (if r.Some? then [r.value] else []) + BatchReports(socks, batch[1..])
  }

  lemma ReportsNext(socks: map<Id, Sock>, batch: seq<(Id, Completion)>, n: nat)
    requires n < |batch| && forall k :: 0 <= k < |batch| ==> batch[k].0 in socks
    ensures BatchReports(socks, batch[n..]) ==
      (if Fed(socks[batch[n].0], batch[n].1).Some? then [Fed(socks[batch[n].0], batch[n].1).value] else [])
      + BatchReports(socks, batch[n + 1..])
  {
    hide Fed;
    assert batch[n..][1..] == batch[n + 1..];
  }

  lemma ReportsEnd(socks: map<Id, Sock>, batch: seq<(Id, Completion)>)
    requires forall k :: 0 <= k < |batch| ==> batch[k].0 in socks
    ensures batch[0..] == batch && BatchReports(socks, batch[|batch|..]) == []
  {
  }

  lemma DueInSocks(v: View)
    requires Ok(v, {})
    ensures forall i :: i in v.outstanding <==> i in v.socks && !v.socks[i].status.Idle?
  {
  }

  /** With EPOLLONESHOT a report ends all interest. */
  function AfterFeed(s: Sock, reported: bool): Sock {
    s.(status := Idle, pendingEvents := 0,
       userEvents := if reported && s.userEvents & EPOLLONESHOT != 0 then 0 else s.userEvents)
  }

  /** What is reported was asked for, and is something. */
  lemma ReportsAskedFor(s: Sock, c: Completion)
    requires Reportable(s, c).Some?
    ensures var e := Reportable(s, c).value.events; e != 0 && e & !s.userEvents == 0
  {
    hide FromAfd;
  }

  lemma RequestedIn(q: seq<Id>, i: Id)
    ensures i in Requested(q, i)
  {
  }

  /** A completion has been taken from the kernel. */
  lemma FedOk(v: View, i: Id)
    requires Ok(v, {}) && i in v.outstanding
    ensures i in v.socks
    ensures Ok(v.(socks := v.socks[i := v.socks[i].(status := Idle, pendingEvents := 0)],
      outstanding := v.outstanding - {i}), {i})
  {
    assert i in v.socks;
    hide SocketsOk, GroupList, GroupCount, Bounded, Fresh;
    var s := v.socks[i].(status := Idle, pendingEvents := 0);
    SockFed(v.socks, v.tree, v.updates, v.deleted, v.outstanding, i);
    CountSame(v.socks, v.sizes, i, s);
    FreshSame(v, i, s);
  }

  lemma SockFed(socks: map<Id, Sock>, tree: map<Socket, Id>, updates: seq<Id>, deleted: seq<Id>, outstanding: set<Id>,
      i: Id)
    requires SocketsOk(socks, tree, updates, deleted, outstanding, {}) && i in socks
    ensures SocketsOk(socks[i := socks[i].(status := Idle, pendingEvents := 0)], tree, updates, deleted,
      outstanding - {i}, {i})
  {
    hide Distinct, Covered;
    var s := socks[i].(status := Idle, pendingEvents := 0);
    assert QueuesOk(socks[i := s], updates, deleted, {i});
    assert TreeOk(socks[i := s], tree);
    assert KernelOk(socks[i := s], outstanding - {i});
    assert InterestOk(socks[i := s], updates, {i});
    hide QueuesOk, TreeOk, KernelOk, InterestOk;
  }

  /** Once it is queued, a registered socket is looked after, whatever its mask. */
  lemma RequeuedOk(v: View, i: Id, userEvents: Events)
    requires Ok(v, {i}) && i in v.socks && !v.socks[i].deletePending
    ensures Ok(v.(socks := v.socks[i := v.socks[i].(userEvents := userEvents)], updates := Requested(v.updates, i)), {})
    ensures v.socks[i := v.socks[i]] == v.socks
  {
    hide SocketsOk, GroupList, GroupCount, Bounded, Fresh;
    var s := v.socks[i].(userEvents := userEvents);
    SockRequeued(v.socks, v.tree, v.updates, v.deleted, v.outstanding, i, s);
    CountSame(v.socks, v.sizes, i, s);
    FreshSame(v, i, s);
  }

  lemma SockRequeued(socks: map<Id, Sock>, tree: map<Socket, Id>, updates: seq<Id>, deleted: seq<Id>,
      outstanding: set<Id>, i: Id, s: Sock)
    requires SocketsOk(socks, tree, updates, deleted, outstanding, {i}) && i in socks && !socks[i].deletePending
    requires s == socks[i].(userEvents := s.userEvents)
    ensures SocketsOk(socks[i := s], tree, Requested(updates, i), deleted, outstanding, {})
  {
    hide Distinct, Covered;
    if i !in updates {
      AppendMembers(updates, i);
    }
    assert QueuesOk(socks[i := s], Requested(updates, i), deleted, {});
    assert TreeOk(socks[i := s], tree);
    assert KernelOk(socks[i := s], outstanding);
    assert InterestOk(socks[i := s], Requested(updates, i), {});
    hide QueuesOk, TreeOk, KernelOk, InterestOk;
  }

  lemma UpdateFacts(v: View, i: Id)
    requires Ok(v, {}) && i in v.updates
    ensures i in v.socks && !v.socks[i].deletePending && Ok(v, {i})
    ensures forall e :: Covered(e, e)
    ensures !v.socks[i].status.Pending? ==> v.socks[i].pendingEvents == 0
    ensures v.socks[i := v.socks[i]] == v.socks
    ensures !v.socks[i].status.Idle? ==> v.outstanding + {i} == v.outstanding
  {
  }

  /** The socket leaves the update queue with its poll under way for all events asked for, or with a cancelled one. */
  lemma UpdatedOk(v: View, i: Id, s: Sock)
    requires Ok(v, {}) && i in v.socks && !v.socks[i].deletePending
    requires s == v.socks[i].(status := s.status, pendingEvents := s.pendingEvents)
    requires Watched(s, false) && (s.status.Cancelled? ==> s.pendingEvents == 0)
    ensures Ok(v.(socks := v.socks[i := s], updates := Without(v.updates, i), outstanding := v.outstanding + {i}), {})
  {
    hide SocketsOk, GroupList, GroupCount, Bounded, Fresh, Watched;
    SockUpdated(v.socks, v.tree, v.updates, v.deleted, v.outstanding, i, s);
    CountSame(v.socks, v.sizes, i, s);
    FreshSame(v, i, s);
  }

  lemma SockUpdated(socks: map<Id, Sock>, tree: map<Socket, Id>, updates: seq<Id>, deleted: seq<Id>,
      outstanding: set<Id>, i: Id, s: Sock)
    requires SocketsOk(socks, tree, updates, deleted, outstanding, {}) && i in socks && !socks[i].deletePending
    requires s == socks[i].(status := s.status, pendingEvents := s.pendingEvents)
    requires Watched(s, false) && (s.status.Cancelled? ==> s.pendingEvents == 0)
    ensures SocketsOk(socks[i := s], tree, Without(updates, i), deleted, outstanding + {i}, {})
  {
    assert !s.status.Idle?;
    hide Distinct, Without, Covered;
    WithoutMembers(updates, i);
    assert QueuesOk(socks[i := s], Without(updates, i), deleted, {});
    assert TreeOk(socks[i := s], tree);
    assert KernelOk(socks[i := s], outstanding + {i});
    assert InterestOk(socks[i := s], Without(updates, i), {});
    hide QueuesOk, TreeOk, KernelOk, InterestOk;
  }

  /** EPOLLERR and EPOLLHUP are always asked for, so that only a poll that is under way can cover the events. */
  lemma NeverCoveredByNothing(e: Events)
    ensures !Covered(e | EPOLLERR | EPOLLHUP, 0)
  {
  }

  lemma EventSetOk(v: View, i: Id, events: Events, userData: int)
    requires Ok(v, {i}) && i in v.socks && !v.socks[i].deletePending
    ensures var s := v.socks[i].(userEvents := events | EPOLLERR | EPOLLHUP, userData := userData);
      Ok(v.(socks := v.socks[i := s],
            updates := if Covered(s.userEvents, s.pendingEvents) then v.updates else Requested(v.updates, i)), {})
  {
    NeverCoveredByNothing(events);
    var s := v.socks[i].(userEvents := events | EPOLLERR | EPOLLHUP, userData := userData);
    hide SocketsOk, GroupList, GroupCount, Bounded, Fresh, Covered;
    SockChanged(v.socks, v.tree, v.updates, v.deleted, v.outstanding, i, s);
    CountSame(v.socks, v.sizes, i, s);
    FreshSame(v, i, s);
  }

  lemma SockChanged(socks: map<Id, Sock>, tree: map<Socket, Id>, updates: seq<Id>, deleted: seq<Id>,
      outstanding: set<Id>, i: Id, s: Sock)
    requires SocketsOk(socks, tree, updates, deleted, outstanding, {i}) && i in socks && !socks[i].deletePending
    requires s == socks[i].(userEvents := s.userEvents, userData := s.userData)
    requires !Covered(s.userEvents, 0)
    ensures SocketsOk(socks[i := s], tree,
      if Covered(s.userEvents, s.pendingEvents) then updates else Requested(updates, i), deleted, outstanding, {})
  {
    hide Distinct, Covered;
    if i !in updates {
      AppendMembers(updates, i);
    }
    var updates' := if Covered(s.userEvents, s.pendingEvents) then updates else Requested(updates, i);
    assert QueuesOk(socks[i := s], updates', deleted, {});
    assert TreeOk(socks[i := s], tree);
    assert KernelOk(socks[i := s], outstanding);
    assert InterestOk(socks[i := s], updates', {});
    hide QueuesOk, TreeOk, KernelOk, InterestOk;
  }

  /** Cancelling the poll of a socket that is being deleted. */
  lemma DeletedOk(v0: View, v: View, i: Id)
    requires Ok(v0, {i}) && i in v0.socks && !v0.socks[i].deletePending
    requires v == v0 || (v0.socks[i].status.Pending? &&
      v == v0.(socks := v0.socks[i := v0.socks[i].(status := Cancelled, pendingEvents := 0)]))
    ensures i in v.socks
    ensures Ok(v.(socks := v.socks[i := v.socks[i].(deletePending := true)], tree := v.tree - {v.socks[i].key},
                  updates := Without(v.updates, i)), {i})
  {
    hide Ok, Without;
    var s := v.socks[i].(deletePending := true);
    assert v.socks[i := s] == v0.socks[i := s];
    IdleNotDue(v0, i);
    MarkedOk(v0, i, s);
  }

  lemma IdleNotDue(v: View, i: Id)
    requires Ok(v, {i}) && i in v.socks
    ensures v.socks[i].status.Idle? ==> v.outstanding - {i} == v.outstanding
    ensures !v.socks[i].status.Pending? ==> v.socks[i].pendingEvents == 0
    ensures i !in v.freed
  {
  }

  lemma OkGroups(v: View, x: set<Id>)
    requires Ok(v, x)
    ensures GroupList(v.groups, v.sizes)
  {
  }

  lemma NobodyIn(socks: map<Id, Sock>, sizes: map<Gid, nat>, g: Gid)
    requires GroupCount(socks, sizes)
    ensures g !in sizes ==> Members(socks, g) == {}
  {
  }
}
