/**
 arc-networkd's multicast relay: traffic between the container's link and the LAN, with a table of open
 sessions for traffic whose source port is not the well-known one.
 */
module ArcRelay {
  import opened Common

  const NUM_TEMP_SOCKETS: nat := 4
  const CLEANUP_TIME_SECONDS := 30

  datatype Addr = Addr(ip: int, port: int)

  // `lanFd` is the LAN socket for stateless traffic, bound only where that is allowed.
  datatype Setup = Setup(intFd: int, lanFd: int, group: Addr, stateless: bool)

  // One of temp_sockets_: a LAN socket and the internal address that opened it.
  datatype Session = Session(fd: int, intAddr: Addr, lastUsed: int)

  datatype Note =
    | Opened(fd: int, from: Addr)                     // a session's socket is bound
    | Relayed(fd: int, to: Addr, data: seq<int>)      // sent from socket fd

  datatype State = State(sessions: seq<Session>, notes: seq<Note>)

  /**
   A datagram read from socket `fd` at time `now`.  `delivered` says whether the send that follows
   succeeds, `bound` is the new socket if one has to be bound and can be, and `garbage` is what an
   uninitialised last_used_ holds.
   */
  datatype Packet = Packet(fd: int, from: Addr, data: seq<int>, now: int, delivered: bool, bound: Option<int>, garbage: int)

  datatype Event = Arrives(p: Packet) | Cleanup(now: int)

  predicate Belongs(c: Setup, s: Session, p: Packet) {
    p.fd == s.fd || (p.fd == c.intFd && p.from.port == s.intAddr.port)
  }

  // The first session the datagram belongs to, or the number of sessions.
  function Find(c: Setup, sessions: seq<Session>, p: Packet): (i: nat)
    ensures i <= |sessions|
    ensures i < |sessions| ==> Belongs(c, sessions[i], p)
    ensures forall j :: 0 <= j < i ==> !Belongs(c, sessions[j], p)
  {
    if sessions == [] then 0
    else if Belongs(c, sessions[0], p) then 0
    else 1 + Find(c, sessions[1..], p)
  }

  // Traffic of an existing session.
  function Forward(c: Setup, s: State, p: Packet, i: nat): State
    requires i < |s.sessions|
  {
    var x := s.sessions[i];
    if p.fd == x.fd then s.(notes := s.notes + [Relayed(c.intFd, x.intAddr, p.data)])
    else State(if p.delivered then s.sessions[i := x.(lastUsed := p.now)] else s.sessions,
               s.notes + [Relayed(x.fd, c.group, p.data)])
  }

  function Opening(s: State, c: Setup, p: Packet, fd: int): State {
    var kept := if |s.sessions| > NUM_TEMP_SOCKETS then s.sessions[..NUM_TEMP_SOCKETS] else s.sessions;
    State([Session(fd, p.from, if p.delivered then p.now else p.garbage)] + kept,
          s.notes + [Opened(fd, p.from), Relayed(fd, c.group, p.data)])
  }

  function Receive(c: Setup, s: State, p: Packet): State {
    var i := Find(c, s.sessions, p);
    if i < |s.sessions| then Forward(c, s, p, i)
    else if c.stateless && p.from.port == c.group.port && p.fd == c.intFd then
      s.(notes := s.notes + [Relayed(c.lanFd, c.group, p.data)])
    else if c.stateless && p.from.port == c.group.port && p.fd == c.lanFd then
      s.(notes := s.notes + [Relayed(c.intFd, c.group, p.data)])
    else if p.fd == c.intFd && p.bound.Some? then Opening(s, c, p, p.bound.value)
    else s
  }

  function Recent(sessions: seq<Session>, since: int): seq<Session> {
    if sessions == [] then []
    else
      var x := sessions[|sessions|-1];
      Recent(sessions[..|sessions|-1], since) + (if x.lastUsed < since then [] else [x])
  }

  function Step(c: Setup, s: State, e: Event): State {
    match e
    case Arrives(p) => Receive(c, s, p)
    case Cleanup(now) => s.(sessions := Recent(s.sessions, now - CLEANUP_TIME_SECONDS))
  }

  ghost function Fds(sessions: seq<Session>): set<int> { set i | 0 <= i < |sessions| :: sessions[i].fd }

  // Datagrams come from open sockets, and the system gives a new socket an unused descriptor.
  ghost predicate Enabled(c: Setup, s: State, e: Event) {
    e.Arrives? ==>
      && (e.p.fd == c.intFd || (c.stateless && e.p.fd == c.lanFd) || e.p.fd in Fds(s.sessions))
      && (e.p.bound.Some? ==> e.p.bound.value !in {c.intFd, c.lanFd} + Fds(s.sessions))
  }

  ghost function Run(c: Setup, s: State, es: seq<Event>): State {
    if es == [] then s
    else
      var t := Run(c, s, es[..|es|-1]);
      if Enabled(c, t, es[|es|-1]) then Step(c, t, es[|es|-1]) else t
  }

  // --- what every run keeps ---

  ghost predicate DistinctPorts(sessions: seq<Session>) {
    forall i, j :: 0 <= i < j < |sessions| ==> sessions[i].intAddr.port != sessions[j].intAddr.port
  }

  ghost predicate DistinctFds(c: Setup, sessions: seq<Session>) {
    && (forall i, j :: 0 <= i < j < |sessions| ==> sessions[i].fd != sessions[j].fd)
    && (forall i :: 0 <= i < |sessions| ==> sessions[i].fd != c.intFd && sessions[i].fd != c.lanFd)
  }

  ghost predicate NoneWellKnown(c: Setup, sessions: seq<Session>) {
    c.stateless ==> forall i :: 0 <= i < |sessions| ==> sessions[i].intAddr.port != c.group.port
  }

  // The internal address for which a socket was bound last.
  ghost function Opener(notes: seq<Note>, fd: int): Option<Addr> {
    if notes == [] then None
    else
      var x := notes[|notes|-1];
      if x.Opened? && x.fd == fd then Some(x.from) else Opener(notes[..|notes|-1], fd)
  }

  ghost predicate OpenersKnown(s: State) {
    forall i :: 0 <= i < |s.sessions| ==> Opener(s.notes, s.sessions[i].fd) == Some(s.sessions[i].intAddr)
  }

  ghost predicate Inv(c: Setup, s: State) {
    && |s.sessions| <= NUM_TEMP_SOCKETS + 1
    && DistinctPorts(s.sessions) && DistinctFds(c, s.sessions) && NoneWellKnown(c, s.sessions)
    && OpenersKnown(s)
  }

  lemma OpenerSnoc(notes: seq<Note>, x: Note, fd: int)
    ensures Opener(notes + [x], fd) == if x.Opened? && x.fd == fd then Some(x.from) else Opener(notes, fd)
  {
    assert (notes + [x])[..|notes|] == notes;
  }

  // Notes other than Opened change nothing about openers.
  lemma RelayedKeepsOpeners(s: State, t: State, x: Note)
    requires OpenersKnown(s) && x.Relayed? && t.notes == s.notes + [x] && |t.sessions| == |s.sessions|
    requires forall i :: 0 <= i < |s.sessions| ==> t.sessions[i].fd == s.sessions[i].fd && t.sessions[i].intAddr == s.sessions[i].intAddr
    ensures OpenersKnown(t)
  {
    forall i | 0 <= i < |t.sessions| ensures Opener(t.notes, t.sessions[i].fd) == Some(t.sessions[i].intAddr) {
      OpenerSnoc(s.notes, x, t.sessions[i].fd);
    }
  }

  lemma ForwardKeeps(c: Setup, s: State, p: Packet, i: nat)
    requires Inv(c, s) && i < |s.sessions|
    ensures Inv(c, Forward(c, s, p, i))
  {
    var t := Forward(c, s, p, i);
    RelayedKeepsOpeners(s, t, t.notes[|s.notes|]);
  }

  lemma OpeningKeeps(c: Setup, s: State, p: Packet, fd: int)
    requires Inv(c, s) && Find(c, s.sessions, p) == |s.sessions| && p.fd == c.intFd
    requires !(c.stateless && p.from.port == c.group.port)
    requires fd !in {c.intFd, c.lanFd} + Fds(s.sessions)
    ensures Inv(c, Opening(s, c, p, fd))
  {
    var t := Opening(s, c, p, fd);
    var mid := s.notes + [Opened(fd, p.from)];
    assert t.notes == mid + [Relayed(fd, c.group, p.data)];
    forall i | 0 <= i < |t.sessions| ensures Opener(t.notes, t.sessions[i].fd) == Some(t.sessions[i].intAddr) {
      OpenerSnoc(mid, Relayed(fd, c.group, p.data), t.sessions[i].fd);
      OpenerSnoc(s.notes, Opened(fd, p.from), t.sessions[i].fd);
      if i > 0 { assert t.sessions[i] == s.sessions[i-1] && s.sessions[i-1].fd in Fds(s.sessions); }
    }
    forall i | 0 < i < |t.sessions|
      ensures t.sessions[i].fd != fd && t.sessions[i].intAddr.port != p.from.port
    {
      assert t.sessions[i] == s.sessions[i-1] && s.sessions[i-1].fd in Fds(s.sessions);
      assert !Belongs(c, s.sessions[i-1], p);
    }
  }

  // Cleanup keeps some of the sessions, in their order.
  lemma {:induction false} RecentIsPart(sessions: seq<Session>, since: int)
    ensures |Recent(sessions, since)| <= |sessions|
    ensures forall x :: x in Recent(sessions, since) <==> x in sessions && x.lastUsed >= since
    decreases |sessions|
  {
    if sessions != [] {
      RecentIsPart(sessions[..|sessions|-1], since);
      assert sessions == sessions[..|sessions|-1] + [sessions[|sessions|-1]];
    }
  }

  /** And those that it keeps stay in their order. */
  lemma {:induction false} RecentInOrder(sessions: seq<Session>, since: int, i: nat, j: nat)
    requires i < j < |Recent(sessions, since)|
    ensures exists a, b :: 0 <= a < b < |sessions| && sessions[a] == Recent(sessions, since)[i] && sessions[b] == Recent(sessions, since)[j]
    decreases |sessions|
  {
    var front, n := sessions[..|sessions|-1], |sessions| - 1;
    var r := Recent(front, since);
    if j < |r| {
      RecentInOrder(front, since, i, j);
      var a, b :| 0 <= a < b < |front| && front[a] == r[i] && front[b] == r[j];
      assert sessions[a] == front[a] && sessions[b] == front[b];
    } else {
      RecentIsPart(front, since);
      assert r[i] in front;
      var a :| 0 <= a < |front| && front[a] == r[i];
      assert sessions[a] == r[i] && sessions[n] == Recent(sessions, since)[j];
    }
  }

  // x shares neither port nor socket with any of the sessions.
  ghost predicate Differs(sessions: seq<Session>, x: Session) {
    forall y :: y in sessions ==> y.fd != x.fd && y.intAddr.port != x.intAddr.port
  }

  lemma {:induction false} DistinctAppend(c: Setup, sessions: seq<Session>, x: Session)
    requires DistinctPorts(sessions) && DistinctFds(c, sessions)
    requires Differs(sessions, x) && x.fd != c.intFd && x.fd != c.lanFd
    ensures DistinctPorts(sessions + [x]) && DistinctFds(c, sessions + [x])
  {
    forall i | 0 <= i < |sessions| ensures sessions[i].fd != x.fd && sessions[i].intAddr.port != x.intAddr.port {
      assert sessions[i] in sessions;
    }
  }

  lemma {:induction false} DistinctFront(c: Setup, sessions: seq<Session>)
    requires sessions != [] && DistinctPorts(sessions) && DistinctFds(c, sessions)
    ensures var front, x := sessions[..|sessions|-1], sessions[|sessions|-1];
            DistinctPorts(front) && DistinctFds(c, front) && Differs(front, x) && x.fd != c.intFd && x.fd != c.lanFd
  {
  }

  lemma {:induction false} RecentKeeps(c: Setup, sessions: seq<Session>, since: int)
    requires DistinctPorts(sessions) && DistinctFds(c, sessions)
    ensures DistinctPorts(Recent(sessions, since)) && DistinctFds(c, Recent(sessions, since))
    decreases |sessions|
  {
    if sessions != [] {
      var front, x := sessions[..|sessions|-1], sessions[|sessions|-1];
      DistinctFront(c, sessions);
      RecentKeeps(c, front, since);
      RecentIsPart(front, since);
      DistinctAppend(c, Recent(front, since), x);
    }
  }

  lemma CleanupKeeps(c: Setup, s: State, since: int)
    requires Inv(c, s)
    ensures Inv(c, s.(sessions := Recent(s.sessions, since)))
  {
    RecentIsPart(s.sessions, since);
    RecentKeeps(c, s.sessions, since);
    var r := Recent(s.sessions, since);
    forall i | 0 <= i < |r|
      ensures Opener(s.notes, r[i].fd) == Some(r[i].intAddr) && (c.stateless ==> r[i].intAddr.port != c.group.port)
    {
      assert r[i] in s.sessions;
    }
  }

  lemma StepKeeps(c: Setup, s: State, e: Event)
    requires Inv(c, s) && Enabled(c, s, e)
    ensures Inv(c, Step(c, s, e))
  {
    match e
    case Cleanup(now) => CleanupKeeps(c, s, now - CLEANUP_TIME_SECONDS);
    case Arrives(p) =>
      var i := Find(c, s.sessions, p);
      var t := Receive(c, s, p);
      if i < |s.sessions| { ForwardKeeps(c, s, p, i); }
      else if c.stateless && p.from.port == c.group.port && (p.fd == c.intFd || p.fd == c.lanFd) {
        RelayedKeepsOpeners(s, t, t.notes[|s.notes|]);
      } else if p.fd == c.intFd && p.bound.Some? { OpeningKeeps(c, s, p, p.bound.value); }
  }

  /** In every run: at most five sessions, on distinct internal ports and distinct sockets, none on the
      well-known port where stateless traffic is allowed, each with the address that opened it. */
  lemma {:induction false} RunKeeps(c: Setup, notes: seq<Note>, es: seq<Event>)
    ensures Inv(c, Run(c, State([], notes), es))
    decreases |es|
  {
    if es != [] {
      RunKeeps(c, notes, es[..|es|-1]);
      var s := Run(c, State([], notes), es[..|es|-1]);
      if Enabled(c, s, es[|es|-1]) { StepKeeps(c, s, es[|es|-1]); }
    }
  }

  /** In every run, a datagram read from a session's socket is passed to the internal address for which
      that socket was bound, and to nobody else. */
  lemma ReplyGoesToOpener(c: Setup, notes: seq<Note>, es: seq<Event>, p: Packet)
    requires var s := Run(c, State([], notes), es);
             Enabled(c, s, Arrives(p)) && p.fd in Fds(s.sessions)
    ensures var s := Run(c, State([], notes), es);
            && Opener(s.notes, p.fd).Some?
            && Receive(c, s, p) == s.(notes := s.notes + [Relayed(c.intFd, Opener(s.notes, p.fd).value, p.data)])
  {
    RunKeeps(c, notes, es);
    var s := Run(c, State([], notes), es);
    var k :| 0 <= k < |s.sessions| && s.sessions[k].fd == p.fd;
    assert Belongs(c, s.sessions[k], p);
  }

  /** In every run, a datagram of the container from a session's port goes out from that session's socket. */
  lemma SessionGoesOut(c: Setup, notes: seq<Note>, es: seq<Event>, p: Packet, i: nat)
    requires var s := Run(c, State([], notes), es);
             p.fd == c.intFd && i < |s.sessions| && s.sessions[i].intAddr.port == p.from.port
    ensures var s := Run(c, State([], notes), es);
            && Receive(c, s, p).notes == s.notes + [Relayed(s.sessions[i].fd, c.group, p.data)]
            && Receive(c, s, p).sessions == if p.delivered then s.sessions[i := s.sessions[i].(lastUsed := p.now)] else s.sessions
  {
    RunKeeps(c, notes, es);
    var s := Run(c, State([], notes), es);
    assert Belongs(c, s.sessions[i], p);
  }

  /** In every run, stateless traffic crosses to the other side, and no session takes it or is made of it. */
  lemma StatelessCrosses(c: Setup, notes: seq<Note>, es: seq<Event>, p: Packet)
    requires c.stateless && c.intFd != c.lanFd && p.from.port == c.group.port && p.fd in {c.intFd, c.lanFd}
    ensures var s := Run(c, State([], notes), es);
            Receive(c, s, p) ==
            s.(notes := s.notes + [Relayed(if p.fd == c.intFd then c.lanFd else c.intFd, c.group, p.data)])
  {
    RunKeeps(c, notes, es);
  }

  // A run has opened a session for the port of the container, and it is still there.
  ghost predicate HasSession(s: State, port: int) { exists i :: 0 <= i < |s.sessions| && s.sessions[i].intAddr.port == port }

  /** In every run, a datagram of the container from a port without a session, which is not stateless traffic and
      for which a socket can be bound, opens a session: the datagram goes to the multicast group from the new
      socket, the session stands first in the table with the sender's address, and of the others the first four
      stay as they are. */
  lemma FirstDatagramOpens(c: Setup, notes: seq<Note>, es: seq<Event>, p: Packet)
    requires var s := Run(c, State([], notes), es);
             && Enabled(c, s, Arrives(p)) && p.fd == c.intFd && p.bound.Some? && !HasSession(s, p.from.port)
             && !(c.stateless && p.from.port == c.group.port)
    ensures var s := Run(c, State([], notes), es);
            var t, fd := Receive(c, s, p), p.bound.value;
            && t.notes == s.notes + [Opened(fd, p.from), Relayed(fd, c.group, p.data)]
            && |t.sessions| == 1 + (if |s.sessions| > 4 then 4 else |s.sessions|)
            && t.sessions[0].fd == fd && t.sessions[0].intAddr == p.from && (p.delivered ==> t.sessions[0].lastUsed == p.now)
            && forall i :: 0 < i < |t.sessions| ==> t.sessions[i] == s.sessions[i-1]
  {
    RunKeeps(c, notes, es);
    var s := Run(c, State([], notes), es);
    forall j | 0 <= j < |s.sessions| ensures !Belongs(c, s.sessions[j], p) {
      assert s.sessions[j].fd != c.intFd && s.sessions[j].intAddr.port != p.from.port;
    }
  }

  /** In every run, a datagram that can arrive is dropped without a trace if and only if it is not stateless
      traffic, and comes from the LAN's own socket, or from the container on a port without session for
      which no socket can be bound. */
  lemma DroppedIff(c: Setup, notes: seq<Note>, es: seq<Event>, p: Packet)
    requires Enabled(c, Run(c, State([], notes), es), Arrives(p))
    ensures var s := Run(c, State([], notes), es);
            Receive(c, s, p) == s <==>
              && !(c.stateless && p.from.port == c.group.port && (p.fd == c.intFd || p.fd == c.lanFd))
              && p.fd !in Fds(s.sessions)
              && (p.fd == c.intFd ==> p.bound.None? && !HasSession(s, p.from.port))
  {
    RunKeeps(c, notes, es);
    var s := Run(c, State([], notes), es);
    var i := Find(c, s.sessions, p);
    if i < |s.sessions| {
      assert |Receive(c, s, p).notes| > |s.notes|;
      assert s.sessions[i].fd in Fds(s.sessions);
    } else {
      forall j | 0 <= j < |s.sessions| ensures s.sessions[j].fd != p.fd && (p.fd == c.intFd ==> s.sessions[j].intAddr.port != p.from.port) {
        assert !Belongs(c, s.sessions[j], p);
      }
      if Receive(c, s, p) != s { assert |Receive(c, s, p).notes| > |s.notes|; }
    }
  }

  // --- how long a session lives ---

  // The session is in the table, at or before position n.
  ghost predicate Within(sessions: seq<Session>, fd: int, a: Addr, used: int, n: int) {
    exists i :: 0 <= i < |sessions| && i <= n && sessions[i].fd == fd && sessions[i].intAddr == a && sessions[i].lastUsed >= used
  }

  // How many sessions a run opens.
  ghost function Opens(notes: seq<Note>): nat {
    if notes == [] then 0
    else Opens(notes[..|notes|-1]) + if notes[|notes|-1].Opened? then 1 else 0
  }

  lemma OpensSnoc(notes: seq<Note>, x: Note)
    ensures Opens(notes + [x]) == Opens(notes) + if x.Opened? then 1 else 0
  {
    assert (notes + [x])[..|notes|] == notes;
  }

  // Time goes on from `used`, and every cleanup comes within thirty seconds of it.
  ghost predicate Timely(e: Event, used: int) {
    match e
    case Arrives(p) => used <= p.now
    case Cleanup(now) => now <= used + CLEANUP_TIME_SECONDS
  }

  lemma {:induction false} RecentWithin(sessions: seq<Session>, since: int, i: nat)
    requires i < |sessions| && sessions[i].lastUsed >= since
    ensures exists j :: 0 <= j <= i && j < |Recent(sessions, since)| && Recent(sessions, since)[j] == sessions[i]
    decreases |sessions|
  {
    var front := sessions[..|sessions|-1];
    var r := Recent(front, since);
    if i < |front| {
      RecentWithin(front, since, i);
      var j :| 0 <= j <= i && j < |r| && r[j] == front[i];
      assert Recent(sessions, since)[j] == r[j];
    } else {
      RecentIsPart(front, since);
      assert Recent(sessions, since)[|r|] == sessions[i];
    }
  }

  lemma StaysInCleanup(sessions: seq<Session>, now: int, fd: int, a: Addr, used: int, n: nat)
    requires Within(sessions, fd, a, used, n) && now <= used + CLEANUP_TIME_SECONDS
    ensures Within(Recent(sessions, now - CLEANUP_TIME_SECONDS), fd, a, used, n)
  {
    var i :| 0 <= i < |sessions| && i <= n && sessions[i].fd == fd && sessions[i].intAddr == a && sessions[i].lastUsed >= used;
    RecentWithin(sessions, now - CLEANUP_TIME_SECONDS, i);
  }

  lemma StaysInForward(c: Setup, s: State, p: Packet, k: nat, fd: int, a: Addr, used: int, n: nat)
    requires Within(s.sessions, fd, a, used, n) && k < |s.sessions| && used <= p.now
    ensures Within(Forward(c, s, p, k).sessions, fd, a, used, n)
    ensures Opens(Forward(c, s, p, k).notes) == Opens(s.notes)
  {
    var t := Forward(c, s, p, k);
    OpensSnoc(s.notes, t.notes[|s.notes|]);
    var i :| 0 <= i < |s.sessions| && i <= n && s.sessions[i].fd == fd && s.sessions[i].intAddr == a && s.sessions[i].lastUsed >= used;
    assert t.sessions[i].fd == fd && t.sessions[i].intAddr == a && t.sessions[i].lastUsed >= used;
  }

  lemma StaysInOpening(c: Setup, s: State, p: Packet, sock: int, fd: int, a: Addr, used: int, n: nat)
    requires Within(s.sessions, fd, a, used, n)
    ensures n < NUM_TEMP_SOCKETS ==> Within(Opening(s, c, p, sock).sessions, fd, a, used, n + 1)
    ensures Opens(Opening(s, c, p, sock).notes) == Opens(s.notes) + 1
  {
    var t := Opening(s, c, p, sock);
    OpensSnoc(s.notes, Opened(sock, p.from));
    OpensSnoc(s.notes + [Opened(sock, p.from)], Relayed(sock, c.group, p.data));
    assert t.notes == s.notes + [Opened(sock, p.from)] + [Relayed(sock, c.group, p.data)];
    if n < NUM_TEMP_SOCKETS {
      var i :| 0 <= i < |s.sessions| && i <= n && s.sessions[i].fd == fd && s.sessions[i].intAddr == a && s.sessions[i].lastUsed >= used;
      assert t.sessions[i+1] == s.sessions[i];
    }
  }

  lemma StaysWithin(c: Setup, s: State, e: Event, fd: int, a: Addr, used: int, n: nat)
    requires Timely(e, used) && Within(s.sessions, fd, a, used, n)
    requires n + Opens(Step(c, s, e).notes) - Opens(s.notes) <= NUM_TEMP_SOCKETS
    ensures Opens(Step(c, s, e).notes) >= Opens(s.notes)
    ensures Within(Step(c, s, e).sessions, fd, a, used, n + Opens(Step(c, s, e).notes) - Opens(s.notes))
  {
    match e
    case Cleanup(now) => StaysInCleanup(s.sessions, now, fd, a, used, n);
    case Arrives(p) =>
      var k := Find(c, s.sessions, p);
      var t := Receive(c, s, p);
      if k < |s.sessions| { StaysInForward(c, s, p, k, fd, a, used, n); }
      else if c.stateless && p.from.port == c.group.port && (p.fd == c.intFd || p.fd == c.lanFd) {
        OpensSnoc(s.notes, t.notes[|s.notes|]);
      } else if p.fd == c.intFd && p.bound.Some? { StaysInOpening(c, s, p, p.bound.value, fd, a, used, n); }
  }

  ghost predicate AllTimely(es: seq<Event>, used: int) {
    forall i :: 0 <= i < |es| ==> Timely(es[i], used)
  }

  /** A session stays in the table for thirty seconds after it was last used, unless so many newer
      sessions are opened that it would be the sixth. */
  lemma {:induction false} SessionSurvives(c: Setup, s: State, es: seq<Event>, fd: int, a: Addr, used: int, n: nat)
    requires Within(s.sessions, fd, a, used, n) && AllTimely(es, used)
    requires n + Opens(Run(c, s, es).notes) - Opens(s.notes) <= NUM_TEMP_SOCKETS
    ensures Opens(Run(c, s, es).notes) >= Opens(s.notes)
    ensures Within(Run(c, s, es).sessions, fd, a, used, n + Opens(Run(c, s, es).notes) - Opens(s.notes))
    decreases |es|
  {
    if es != [] {
      var prev, e := es[..|es|-1], es[|es|-1];
      var t := Run(c, s, prev);
      OpensGrow(c, t, e);
      SessionSurvives(c, s, prev, fd, a, used, n);
      if Enabled(c, t, e) { StaysWithin(c, t, e, fd, a, used, n + Opens(t.notes) - Opens(s.notes)); }
    }
  }

  lemma OpensGrow(c: Setup, s: State, e: Event)
    ensures Opens(Step(c, s, e).notes) >= Opens(s.notes)
  {
    var t := Step(c, s, e);
    if t.notes != s.notes {
      OpensSnoc(s.notes, t.notes[|s.notes|]);
      if t.notes != s.notes + [t.notes[|s.notes|]] {
        var x, y := t.notes[|s.notes|], t.notes[|s.notes|+1];
        OpensSnoc(s.notes + [x], y);
        assert t.notes == s.notes + [x] + [y];
      }
    }
  }

  lemma {:induction false} RunSplit(c: Setup, s: State, es: seq<Event>, fs: seq<Event>)
    ensures Run(c, s, es + fs) == Run(c, Run(c, s, es), fs)
    decreases |fs|
  {
    if fs == [] { assert es + fs == es; }
    else {
      RunSplit(c, s, es, fs[..|fs|-1]);
      assert (es + fs)[..|es+fs|-1] == es + fs[..|fs|-1];
    }
  }

  /**
   A conversation: an internal datagram opens a session, and for thirty seconds, while at most four more
   sessions are opened, a datagram that comes back on its socket reaches the sender.
   */
  lemma ReplyComesBack(c: Setup, notes: seq<Note>, before: seq<Event>, p: Packet, after: seq<Event>, q: Packet)
    requires var s := Run(c, State([], notes), before);
             && Enabled(c, s, Arrives(p)) && p.fd == c.intFd && p.bound.Some? && p.delivered
             && Find(c, s.sessions, p) == |s.sessions| && !(c.stateless && p.from.port == c.group.port)
    requires var t := Run(c, State([], notes), before + [Arrives(p)]);
             && AllTimely(after, p.now) && Opens(Run(c, t, after).notes) <= Opens(t.notes) + NUM_TEMP_SOCKETS
             && q.fd == p.bound.value
    ensures var u := Run(c, Run(c, State([], notes), before + [Arrives(p)]), after);
            Receive(c, u, q) == u.(notes := u.notes + [Relayed(c.intFd, p.from, q.data)])
  {
    var es := before + [Arrives(p)];
    assert es[..|es|-1] == before && es[|es|-1] == Arrives(p);
    var t := Run(c, State([], notes), es);
    assert t.sessions[0] == Session(p.bound.value, p.from, p.now);
    SessionSurvives(c, t, after, p.bound.value, p.from, p.now, 0);
    var u := Run(c, t, after);
    RunSplit(c, State([], notes), es, after);
    RunKeeps(c, notes, es + after);
    OwnReply(c, u, q, p.from);
  }

  lemma OwnReply(c: Setup, s: State, q: Packet, a: Addr)
    requires Inv(c, s) && exists k :: 0 <= k < |s.sessions| && s.sessions[k].fd == q.fd && s.sessions[k].intAddr == a
    ensures Receive(c, s, q) == s.(notes := s.notes + [Relayed(c.intFd, a, q.data)])
  {
    var k :| 0 <= k < |s.sessions| && s.sessions[k].fd == q.fd && s.sessions[k].intAddr == a;
    assert Belongs(c, s.sessions[k], q);
  }

  // One turn of the cleanup loop: what is kept so far, the session looked at, and the rest.
  lemma {:induction false} CleanupStep(all: seq<Session>, seen: nat, since: int)
    requires seen < |all|
    ensures var kept, rest, x := Recent(all[..seen], since), all[seen+1..], all[seen];
            && (kept + all[seen..])[|kept|] == x
            && (kept + all[seen..])[..|kept|] + (kept + all[seen..])[|kept|+1..] == kept + rest
            && kept + all[seen..] == kept + [x] + rest
            && Recent(all[..seen+1], since) == if x.lastUsed < since then kept else kept + [x]
  {
    assert all[..seen+1][..seen] == all[..seen];
    assert all[seen..] == [all[seen]] + all[seen+1..];
  }

  /** The relay itself.  `tempSockets` is its deque, newest session first. */
  class MulticastForwarder {
    const setup: Setup
    var tempSockets: seq<Session>
    ghost var notes: seq<Note>

    constructor (setup: Setup)
      ensures View() == State([], []) && this.setup == setup && Inv(setup, View())
    {
      this.setup, tempSockets, notes := setup, [], [];
      new;
      RunKeeps(setup, [], []);
    }

    ghost function View(): State
      reads this
    {
      State(tempSockets, notes)
    }

    // The loop over open sessions: relays the datagram for the first one it belongs to.
    method ForwardInSession(p: Packet) returns (done: bool)
      modifies this
      ensures var i := Find(setup, old(tempSockets), p);
              && done == (i < |old(tempSockets)|)
              && View() == if done then Forward(setup, old(View()), p, i) else old(View())
    {
      var i := 0;
      ghost var all := tempSockets;
      while i < |tempSockets|
        invariant i <= |tempSockets| && View() == old(View())
        invariant Find(setup, all, p) == i + Find(setup, all[i..], p)
      {
        var x := tempSockets[i];
        if p.fd == x.fd {
          notes := notes + [Relayed(setup.intFd, x.intAddr, p.data)];
          return true;
        } else if p.fd == setup.intFd && p.from.port == x.intAddr.port {
          notes := notes + [Relayed(x.fd, setup.group, p.data)];
          if p.delivered {
            tempSockets := tempSockets[i := x.(lastUsed := p.now)];
          }
          return true;
        }
        assert all[i..][1..] == all[i+1..];
        i := i + 1;
      }
      return false;
    }

    method OpenSession(p: Packet, fd: int)
      modifies this
      ensures View() == Opening(old(View()), setup, p, fd)
    {
      notes := notes + [Opened(fd, p.from), Relayed(fd, setup.group, p.data)];
      ghost var all := tempSockets;
      while |tempSockets| > NUM_TEMP_SOCKETS
        invariant tempSockets <= all
        invariant |all| <= NUM_TEMP_SOCKETS ==> tempSockets == all
        invariant |all| > NUM_TEMP_SOCKETS ==> |tempSockets| >= NUM_TEMP_SOCKETS
        invariant notes == old(notes) + [Opened(fd, p.from), Relayed(fd, setup.group, p.data)]
      {
        tempSockets := tempSockets[..|tempSockets|-1];
      }
      tempSockets := [Session(fd, p.from, if p.delivered then p.now else p.garbage)] + tempSockets;
    }

    method OnFileCanReadWithoutBlocking(p: Packet)
      modifies this
      ensures View() == Receive(setup, old(View()), p)
    {
      var done := ForwardInSession(p);
      if done {
        return;
      }
      if setup.stateless && p.from.port == setup.group.port {
        if p.fd == setup.intFd {
          notes := notes + [Relayed(setup.lanFd, setup.group, p.data)];
          return;
        } else if p.fd == setup.lanFd {
          notes := notes + [Relayed(setup.intFd, setup.group, p.data)];
          return;
        }
      }
      if p.fd != setup.intFd || p.bound.None? {
        return;
      }
      OpenSession(p, p.bound.value);
    }

    method CleanupTask(now: int)
      modifies this
      ensures View() == old(View()).(sessions := Recent(old(tempSockets), now - CLEANUP_TIME_SECONDS))
    {
      var since := now - CLEANUP_TIME_SECONDS;
      ghost var all := tempSockets;
      ghost var seen := 0;
      var i := 0;
      while i < |tempSockets|
        invariant notes == old(notes) && seen <= |all|
        invariant i == |Recent(all[..seen], since)| && tempSockets == Recent(all[..seen], since) + all[seen..]
        decreases |tempSockets| - i
      {
        CleanupStep(all, seen, since);
        if tempSockets[i].lastUsed < since {
          tempSockets := tempSockets[..i] + tempSockets[i+1..];
        } else {
          i := i + 1;
        }
        seen := seen + 1;
      }
      assert all[seen..] == [] && all[..seen] == all;
    }

    method Handle(e: Event)
      requires Enabled(setup, View(), e) && Inv(setup, View())
      modifies this
      ensures View() == Step(setup, old(View()), e) && Inv(setup, View())
    {
      StepKeeps(setup, View(), e);
      match e
      case Arrives(p) => OnFileCanReadWithoutBlocking(p);
      case Cleanup(now) => CleanupTask(now);
    }

    // The descriptor is open for reading, and the one for a new socket is not in use.
    method CanHappen(e: Event) returns (can: bool)
      ensures can == Enabled(setup, View(), e)
    {
      if e.Cleanup? {
        return true;
      }
      var fds := set i | 0 <= i < |tempSockets| :: tempSockets[i].fd;
      return (e.p.fd == setup.intFd || (setup.stateless && e.p.fd == setup.lanFd) || e.p.fd in fds)
          && (e.p.bound.Some? ==> e.p.bound.value !in {setup.intFd, setup.lanFd} + fds);
    }

    /** For any events the forwarder goes through the run above, and the invariant holds of it. */
    method Drive(es: seq<Event>)
      requires Inv(setup, View())
      modifies this
      ensures View() == Run(setup, old(View()), es) && Inv(setup, View())
    {
      for i := 0 to |es|
        invariant View() == Run(setup, old(View()), es[..i]) && Inv(setup, View())
      {
        assert es[..i+1][..i] == es[..i];
        var can := CanHappen(es[i]);
        if can {
          Handle(es[i]);
        }
      }
      assert es[..|es|] == es;
    }
  }
}
