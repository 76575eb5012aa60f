/** The records and invariants of one epoll port: sockets, queues, outstanding polls and poll groups. */
module WepollSocket {
  import opened Wrappers

  // ----- Event masks

  type Events = bv32
  type AfdEvents = bv16

  const EPOLLIN: Events := 0x0001
  const EPOLLPRI: Events := 0x0002
  const EPOLLOUT: Events := 0x0004
  const EPOLLERR: Events := 0x0008
  const EPOLLHUP: Events := 0x0010
  const EPOLLRDNORM: Events := 0x0040
  const EPOLLRDBAND: Events := 0x0080
  const EPOLLWRNORM: Events := 0x0100
  const EPOLLWRBAND: Events := 0x0200
  const EPOLLMSG: Events := 0x0400
  const EPOLLRDHUP: Events := 0x2000
  const EPOLLONESHOT: Events := 0x8000_0000

  // SOCK__KNOWN_EPOLL_EVENTS
  const KNOWN: Events := 0x27DF

  const RECEIVE: AfdEvents := 0x0001
  const RECEIVE_EXPEDITED: AfdEvents := 0x0002
  const SEND: AfdEvents := 0x0004
  const DISCONNECT: AfdEvents := 0x0008
  const ABORT: AfdEvents := 0x0010
  const LOCAL_CLOSE: AfdEvents := 0x0020
  const ACCEPT: AfdEvents := 0x0080
  const CONNECT_FAIL: AfdEvents := 0x0100

  /** sock__epoll_events_to_afd_events */
  function ToAfd(e: Events): AfdEvents {
    LOCAL_CLOSE
    | (if e & (EPOLLIN | EPOLLRDNORM) != 0 then RECEIVE | ACCEPT else 0)
    | (if e & (EPOLLPRI | EPOLLRDBAND) != 0 then RECEIVE_EXPEDITED else 0)
    | (if e & (EPOLLOUT | EPOLLWRNORM | EPOLLWRBAND) != 0 then SEND else 0)
    | (if e & (EPOLLIN | EPOLLRDNORM | EPOLLRDHUP) != 0 then DISCONNECT else 0)
    | (if e & EPOLLHUP != 0 then ABORT else 0)
    | (if e & EPOLLERR != 0 then CONNECT_FAIL else 0)
  }

  /** sock__afd_events_to_epoll_events */
  function FromAfd(a: AfdEvents): Events {
    (if a & (RECEIVE | ACCEPT) != 0 then EPOLLIN | EPOLLRDNORM else 0)
    | (if a & RECEIVE_EXPEDITED != 0 then EPOLLPRI | EPOLLRDBAND else 0)
    | (if a & SEND != 0 then EPOLLOUT | EPOLLWRNORM | EPOLLWRBAND else 0)
    | (if a & DISCONNECT != 0 then EPOLLIN | EPOLLRDNORM | EPOLLRDHUP else 0)
    | (if a & ABORT != 0 then EPOLLHUP else 0)
    | (if a & CONNECT_FAIL != 0 then EPOLLIN | EPOLLOUT | EPOLLERR | EPOLLRDNORM | EPOLLWRNORM | EPOLLRDHUP else 0)
  }

  /** user_events & SOCK__KNOWN_EPOLL_EVENTS & ~pending_events == 0: the pending poll covers every known event asked
      for. */
  predicate Covered(user: Events, pending: Events) { user & KNOWN & !pending == 0 }

  /** The poll for a mask reports every known event in the mask, except EPOLLMSG, which is never reported. */
  lemma MaskRoundTrip(e: Events)
    ensures e & KNOWN & !EPOLLMSG & !FromAfd(ToAfd(e)) == 0
  {
  }

  /** The single events of the kernel. */
  predicate OneAfdEvent(a: AfdEvents) {
    || a == RECEIVE || a == RECEIVE_EXPEDITED || a == SEND || a == DISCONNECT || a == ABORT || a == LOCAL_CLOSE
    || a == ACCEPT || a == CONNECT_FAIL
  }

  /** For a mask with EPOLLERR, as sock_set_event makes them all: the poll is for exactly those events of the kernel
      that have something to report to the mask, and for the close of the socket. */
  lemma PollsWhatIsReported(e: Events, a: AfdEvents)
    requires e & EPOLLERR != 0 && OneAfdEvent(a)
    ensures ToAfd(e) & a != 0 <==> a == LOCAL_CLOSE || FromAfd(a) & e != 0
  {
  }

  // ----- Records

  type Id = nat      // a sock_state_t
  type Gid = nat     // a poll_group_t
  type Socket = nat  // the key in the socket tree

  datatype Status = Idle | Pending | Cancelled

  datatype Sock = Sock(key: Socket, group: Gid, userData: int, userEvents: Events, pendingEvents: Events,
      status: Status, deletePending: bool)

  const MAX_GROUP_SIZE: nat := 32

  // ----- Queues as sequences

  predicate Distinct<T(==)>(q: seq<T>) { forall i, j :: 0 <= i < j < |q| ==> q[i] != q[j] }

  /** queue_remove, of a node that may be enqueued */
  function Without<T(==)>(q: seq<T>, x: T): seq<T> {
    if q == [] then [] else if q[0] == x then q[1..] else [q[0]] + Without(q[1..], x)
  }

  /** queue_append, unless the node is enqueued already */
  function Requested<T(==)>(q: seq<T>, x: T): seq<T> { if x in q then q else q + [x] }

  lemma {:induction false} WithoutMembers<T>(q: seq<T>, x: T)
    requires Distinct(q)
    ensures Distinct(Without(q, x)) && forall y :: y in Without(q, x) <==> y in q && y != x
    ensures |Without(q, x)| == |q| - if x in q then 1 else 0
  {
    if q != [] && q[0] != x {
      assert q == [q[0]] + q[1..];
      WithoutMembers(q[1..], x);
      var r := Without(q[1..], x);
      var w := Without(q, x);
      forall i, j | 0 <= i < j < |w| ensures w[i] != w[j] {
        if i == 0 {
          assert w[j] == r[j - 1] && r[j - 1] in r;
        } else {
          assert w[i] == r[i - 1] && w[j] == r[j - 1];
        }
      }
    } else if q != [] {
      assert q == [q[0]] + q[1..];
      forall y | y in q && y != x ensures y in q[1..] {
      }
    }
  }

  lemma {:induction false} WithoutAbsent<T>(q: seq<T>, x: T)
    requires x !in q
    ensures Without(q, x) == q
  {
    if q != [] {
      WithoutAbsent(q[1..], x);
    }
  }

  lemma AppendMembers<T>(q: seq<T>, x: T)
    requires Distinct(q) && x !in q
    ensures Distinct(q + [x]) && Distinct([x] + q)
  {
  }

  // ----- Invariants

  /** The tree holds exactly the sockets that are not marked for deletion, under their keys. */
  ghost predicate TreeOk(socks: map<Id, Sock>, tree: map<Socket, Id>) {
    && (forall k :: k in tree ==> tree[k] in socks && !socks[tree[k]].deletePending && socks[tree[k]].key == k)
    && (forall i :: i in socks && !socks[i].deletePending ==> socks[i].key in tree && tree[socks[i].key] == i)
  }

  /** A socket is in at most one queue: waiting for an update if it is registered, waiting for its poll to end if it is
      deleted. */
  ghost predicate QueuesOk(socks: map<Id, Sock>, updates: seq<Id>, deleted: seq<Id>, x: set<Id>) {
    && Distinct(updates) && Distinct(deleted)
    && (forall i :: i in updates ==> i in socks && !socks[i].deletePending)
    && (forall i :: i in deleted ==> i in socks && socks[i].deletePending)
    && (forall i :: i in socks && socks[i].deletePending && i !in x ==> i in deleted)
  }

  /** The kernel owes a completion exactly for the sockets whose poll is not idle. */
  ghost predicate KernelOk(socks: map<Id, Sock>, outstanding: set<Id>) {
    && (forall i :: i in outstanding <==> i in socks && !socks[i].status.Idle?)
    && (forall i :: i in socks && !socks[i].status.Pending? ==> socks[i].pendingEvents == 0)
  }

  /** No lost interest: every socket but those in `x` is about to be updated, or polled for all it asked for, or will be
      updated when its cancelled poll ends. */
  ghost predicate InterestOk(socks: map<Id, Sock>, updates: seq<Id>, x: set<Id>) {
    && (forall i :: i in socks && i !in x && !socks[i].deletePending ==> Watched(socks[i], i in updates))
    && (forall i :: i in socks && i !in x && socks[i].deletePending ==> !socks[i].status.Idle?)
  }

  predicate Watched(s: Sock, queued: bool) {
    queued || s.status.Cancelled? || (s.status.Pending? && Covered(s.userEvents, s.pendingEvents))
  }

  // ----- Poll groups

  function Members(socks: map<Id, Sock>, g: Gid): set<Id> { set i | i in socks && socks[i].group == g }

  predicate AllRoom(groups: seq<Gid>, sizes: map<Gid, nat>) {
    forall g :: g in groups ==> g in sizes && sizes[g] < MAX_GROUP_SIZE
  }

  /** The full groups come first. */
  predicate FullFirst(groups: seq<Gid>, sizes: map<Gid, nat>) {
    || AllRoom(groups, sizes)
    || (groups[0] in sizes && sizes[groups[0]] == MAX_GROUP_SIZE && FullFirst(groups[1..], sizes))
  }

  lemma {:induction false} FullFirstWithout(groups: seq<Gid>, sizes: map<Gid, nat>, x: Gid)
    requires FullFirst(groups, sizes) && Distinct(groups)
    ensures FullFirst(Without(groups, x), sizes)
  {
    WithoutMembers(groups, x);
    if !AllRoom(groups, sizes) {
      FullFirstWithout(groups[1..], sizes, x);
      if groups[0] != x {
        assert Without(groups, x)[1..] == Without(groups[1..], x);
      }
    }
  }

  lemma {:induction false} FullFirstSizes(groups: seq<Gid>, a: map<Gid, nat>, b: map<Gid, nat>)
    requires FullFirst(groups, a) && forall g :: g in groups && g in a ==> g in b && b[g] == a[g]
    ensures FullFirst(groups, b)
  {
    if !AllRoom(groups, a) {
      FullFirstSizes(groups[1..], a, b);
    }
  }

  lemma {:induction false} FullFirstAppend(groups: seq<Gid>, sizes: map<Gid, nat>, x: Gid)
    requires FullFirst(groups, sizes) && x in sizes && sizes[x] < MAX_GROUP_SIZE
    ensures FullFirst(groups + [x], sizes)
  {
    if AllRoom(groups, sizes) {
      assert AllRoom(groups + [x], sizes);
    } else {
      FullFirstAppend(groups[1..], sizes, x);
      assert (groups + [x])[1..] == groups[1..] + [x];
    }
  }

  lemma {:induction false} LastFullAllFull(groups: seq<Gid>, sizes: map<Gid, nat>, g: Gid)
    requires FullFirst(groups, sizes) && g in groups
    requires groups[|groups| - 1] in sizes && sizes[groups[|groups| - 1]] == MAX_GROUP_SIZE
    ensures g in sizes && sizes[g] == MAX_GROUP_SIZE
  {
    var last := groups[|groups| - 1];
    assert last in groups;
    if groups[0] != g {
      assert groups[1..][|groups| - 2] == last;
      LastFullAllFull(groups[1..], sizes, g);
    }
  }

  /** What all groups hold together. */
  function Total(groups: seq<Gid>, sizes: map<Gid, nat>): nat
    requires forall g :: g in groups ==> g in sizes
  {
    if groups == [] then 0 else sizes[groups[0]] + Total(groups[1..], sizes)
  }

  /** The group sizes sum to the number of sockets. */
  lemma {:induction false} TotalIsSockets(socks: map<Id, Sock>, groups: seq<Gid>, sizes: map<Gid, nat>)
    requires Distinct(groups) && forall g :: g in groups ==> g in sizes && sizes[g] == |Members(socks, g)|
    requires forall i :: i in socks ==> socks[i].group in groups
    ensures Total(groups, sizes) == |socks|
  {
    if groups == [] {
      assert socks.Keys == {};
      assert |socks| == |socks.Keys|;
    } else {
      var rest := Outside(socks, groups[0]);
      OutsideMembers(socks, groups[0]);
      assert forall h :: h in groups[1..] ==> h in groups && h != groups[0];
      TotalIsSockets(rest, groups[1..], sizes);
    }
  }

  function Outside(socks: map<Id, Sock>, g: Gid): map<Id, Sock> {
    map i | i in socks && socks[i].group != g :: socks[i]
  }

  lemma OutsideMembers(socks: map<Id, Sock>, g: Gid)
    ensures |socks| == |Members(socks, g)| + |Outside(socks, g)|
    ensures forall h :: h != g ==> Members(Outside(socks, g), h) == Members(socks, h)
  {
    var m, rest := Members(socks, g), Outside(socks, g);
    assert socks.Keys == m + rest.Keys && m !! rest.Keys;
    assert |socks| == |socks.Keys| && |rest| == |rest.Keys|;
  }

  /** All groups full: 32 sockets each. */
  lemma {:induction false} TotalFull(groups: seq<Gid>, sizes: map<Gid, nat>)
    requires forall g :: g in groups ==> g in sizes && sizes[g] == MAX_GROUP_SIZE
    ensures Total(groups, sizes) == MAX_GROUP_SIZE * |groups|
  {
    if groups != [] {
      TotalFull(groups[1..], sizes);
    }
  }

  /** How many groups n sockets need. */
  function GroupsFor(n: nat): nat { (n + MAX_GROUP_SIZE - 1) / MAX_GROUP_SIZE }
}
