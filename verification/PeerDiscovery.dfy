/**
 The peer table of the discovery protocol (runtime/daemon/ipc_server.cpp), with the
 remote GPUs it registers (runtime/daemon/device_registry.cpp).

 Every handler runs under m_peerMutex, so a run is a sequence of whole handlers in any
 order.  A heartbeat from an unknown node re-enters the announcement handler while the
 mutex is held; the model gives it the effect it is written for, a registration.
 */
module PeerDiscovery {

  import opened Common

  const MAX_MISSED: nat := 24

  datatype PeerState = Discovered | Connected | Active | Disconnected

  function Rank(s: PeerState): nat {
    match s
    case Discovered => 0
    case Connected => 1
    case Active => 2
    case Disconnected => 3
  }

  /** `fd` is -1 while no TCP socket is attached. */
  datatype Peer = Peer(nodeId: nat, address: string, tcpPort: nat, state: PeerState, gpuCount: nat,
                       lastSeen: nat, lastHeartbeat: nat, missed: nat, fd: int)

  datatype RemoteGpu = RemoteGpu(node: nat, index: nat, address: string)

  /** `accepted` and `closed` record the descriptors handed out by accept and given
      back with close; the system may reuse a number once it is closed. */
  datatype Net = Net(self: nat, peers: map<nat, Peer>, gpus: seq<RemoteGpu>,
                     accepted: multiset<int>, closed: multiset<int>)

  datatype Event =
    | Announce(node: nat, address: string, port: nat, count: nat, now: nat)
    | Heartbeat(node: nat, address: string, port: nat, count: nat, now: nat)
    | HeartbeatAck(node: nat, now: nat)
    | Goodbye(node: nat)
    | Ignored
    | Accept(fd: int, address: string, choice: Option<nat>)
    | Tick(readings: map<nat, nat>)    // the clock as read for each node
    | Prune(now: nat, timeout: nat)

  predicate Initial(s: Net) {
    s.peers == map[] && s.gpus == [] && s.accepted == multiset{} && s.closed == multiset{}
  }

  /** A peer an incoming connection from `address` may be attached to. */
  predicate Matches(p: Peer, address: string) {
    p.address == address && p.fd < 0
  }

  /** The socket of some live peer. */
  predicate Attached(s: Net, fd: int) {
    exists n | n in s.peers :: s.peers[n].fd == fd
  }

  predicate Enabled(s: Net, e: Event) {
    match e
    case Accept(fd, address, choice) =>
      && fd >= 0 && !Attached(s, fd)     // accept4 returns a descriptor that is not open
      && (match choice
          case Some(n) => n in s.peers && Matches(s.peers[n], address)
          case None => forall n | n in s.peers :: !Matches(s.peers[n], address))
    case Tick(readings) => s.peers.Keys <= readings.Keys
    case _ => true
  }

  function GpusOf(node: nat, count: nat, address: string): seq<RemoteGpu> {
    seq(count, i requires 0 <= i < count => RemoteGpu(node, i, address))
  }

  function Refreshed(p: Peer, address: string, port: nat, count: nat, now: nat): Peer {
    p.(address := address, tcpPort := port, gpuCount := count, lastSeen := now, missed := 0,
       state := if p.state == Discovered then Connected else p.state)
  }

  function Confirmed(p: Peer, now: nat): Peer {
    p.(lastSeen := now, missed := 0, state := if p.state == Connected then Active else p.state)
  }

  function Beaten(p: Peer, now: nat): Peer {
    if p.state == Active || p.state == Connected
    then p.(lastHeartbeat := now, missed := (p.missed + 1) % TWO32)
    else p
  }

  function Elapsed(p: Peer, now: nat): nat {
    if now > p.lastSeen then now - p.lastSeen else 0
  }

  predicate Stale(p: Peer, now: nat, timeout: nat) {
    Elapsed(p, now) > timeout || p.missed > MAX_MISSED
  }

  function StaleNodes(s: Net, now: nat, timeout: nat): set<nat> {
    set n | n in s.peers && Stale(s.peers[n], now, timeout)
  }

  function Sockets(s: Net, nodes: set<nat>): set<int> {
    set n | n in nodes && n in s.peers && s.peers[n].fd >= 0 :: s.peers[n].fd
  }

  function SocketOf(p: Peer): multiset<int> {
    if p.fd >= 0 then multiset{p.fd} else multiset{}
  }

  function Announced(s: Net, node: nat, address: string, port: nat, count: nat, now: nat): Net {
    if node == s.self then s
    else if node in s.peers then
      s.(peers := s.peers[node := Refreshed(s.peers[node], address, port, count, now)])
    else
      s.(peers := s.peers[node := Peer(node, address, port, Discovered, count, now, now, 0, -1)],
         gpus := s.gpus + GpusOf(node, count, address))
  }

  function Attach(p: Peer, fd: int): Peer {
    p.(fd := fd, state := if p.state == Discovered then Connected else p.state)
  }

  function Step(s: Net, e: Event): Net
    requires Enabled(s, e)
  {
    match e
    case Announce(node, address, port, count, now) => Announced(s, node, address, port, count, now)
    case Heartbeat(node, address, port, count, now) =>
      if node != s.self && node in s.peers then s.(peers := s.peers[node := Confirmed(s.peers[node], now)])
      else Announced(s, node, address, port, count, now)
    case HeartbeatAck(node, now) =>
      if node != s.self && node in s.peers then s.(peers := s.peers[node := Confirmed(s.peers[node], now)])
      else s
    case Goodbye(node) =>
      if node in s.peers then s.(peers := s.peers[node := s.peers[node].(state := Disconnected)]) else s
    case Ignored => s
    case Accept(fd, _, choice) =>
      var s' := s.(accepted := s.accepted + multiset{fd});
      if choice.Some? then s'.(peers := s.peers[choice.value := Attach(s.peers[choice.value], fd)])
      else s'.(closed := s.closed + multiset{fd})
    case Tick(readings) => s.(peers := map n | n in s.peers :: Beaten(s.peers[n], readings[n]))
    case Prune(now, timeout) =>
      var stale := StaleNodes(s, now, timeout);
      s.(peers := s.peers - stale, closed := s.closed + multiset(Sockets(s, stale)))
  }

  ghost predicate IsRun(ss: seq<Net>, es: seq<Event>) {
    && |ss| == |es| + 1
    && Initial(ss[0])
    && forall i | 0 <= i < |es| :: Enabled(ss[i], es[i]) && ss[i + 1] == Step(ss[i], es[i])
  }

  // ---- Invariant ----

  ghost predicate PeerInv(s: Net, n: nat)
    requires n in s.peers
  {
    && n != s.self
    && s.peers[n].nodeId == n
    && (s.peers[n].fd >= 0 ==> s.peers[n].state != Discovered)
  }

  ghost predicate SocketsDistinct(s: Net) {
    forall m, n | m in s.peers && n in s.peers && s.peers[m].fd == s.peers[n].fd >= 0 :: m == n
  }

  ghost predicate DescriptorsBalance(s: Net) {
    forall fd | fd >= 0 :: s.accepted[fd] == s.closed[fd] + if Attached(s, fd) then 1 else 0
  }

  ghost predicate Inv(s: Net) {
    && (forall n | n in s.peers :: PeerInv(s, n))
    && SocketsDistinct(s)
    && DescriptorsBalance(s)
  }

  /** A step that keeps every peer, its socket and the descriptor books. */
  lemma SameSocketsKeepInv(s: Net, s': Net)
    requires Inv(s) && s'.self == s.self && s'.accepted == s.accepted && s'.closed == s.closed
    requires s.peers.Keys <= s'.peers.Keys
    requires forall n | n in s'.peers :: PeerInv(s', n)
    requires forall n | n in s'.peers :: if n in s.peers then s'.peers[n].fd == s.peers[n].fd else s'.peers[n].fd < 0
    ensures Inv(s')
  {
    forall fd | fd >= 0 ensures Attached(s', fd) == Attached(s, fd) {
      if Attached(s, fd) {
        var n :| n in s.peers && s.peers[n].fd == fd;
        assert s'.peers[n].fd == fd;
      }
    }
  }

  /** Entering or rewriting one entry without touching its socket. */
  lemma OneEntryKeepsInv(s: Net, n: nat, p: Peer, gpus: seq<RemoteGpu>)
    requires Inv(s) && n != s.self && p.nodeId == n
    requires if n in s.peers then p.fd == s.peers[n].fd else p.fd < 0
    requires p.fd >= 0 ==> p.state != Discovered
    ensures Inv(s.(peers := s.peers[n := p], gpus := gpus))
  {
    var s' := s.(peers := s.peers[n := p], gpus := gpus);
    forall m | m in s'.peers ensures PeerInv(s', m) {
      assert m != n ==> PeerInv(s, m);
    }
    SameSocketsKeepInv(s, s');
  }

  lemma TickKeepsInv(s: Net, e: Event)
    requires Inv(s) && e.Tick? && Enabled(s, e)
    ensures Inv(Step(s, e))
  {
    var s' := Step(s, e);
    forall n | n in s'.peers ensures PeerInv(s', n) {
      assert PeerInv(s, n);
    }
    SameSocketsKeepInv(s, s');
  }

  /** The handlers of discovery messages. */
  lemma MessageKeepsInv(s: Net, e: Event)
    requires Inv(s) && (e.Announce? || e.Heartbeat? || e.HeartbeatAck? || e.Goodbye?)
    ensures Inv(Step(s, e)) && Step(s, e).self == s.self
  {
    var s' := Step(s, e);
    if e.node in s.peers {
      assert PeerInv(s, e.node);
    }
    if e.node in s'.peers && s' != s {
      OneEntryKeepsInv(s, e.node, s'.peers[e.node], s'.gpus);
      assert s' == s.(peers := s.peers[e.node := s'.peers[e.node]], gpus := s'.gpus);
    }
  }

  lemma AcceptKeepsInv(s: Net, e: Event)
    requires Inv(s) && e.Accept? && Enabled(s, e)
    ensures Inv(Step(s, e))
  {
    var s' := Step(s, e);
    assert forall n | n in s.peers :: PeerInv(s, n);
    if e.choice.Some? {
      assert s'.peers[e.choice.value].fd == e.fd;
      forall fd | fd >= 0 && fd != e.fd ensures Attached(s', fd) == Attached(s, fd) {
        if Attached(s, fd) {
          var n :| n in s.peers && s.peers[n].fd == fd;
          assert s'.peers[n].fd == fd;
        }
      }
    } else {
      assert s'.peers == s.peers;
      assert forall fd :: Attached(s', fd) == Attached(s, fd);
    }
  }

  /** The sockets given back by a prune, one close for each. */
  lemma PruneCloses(s: Net, e: Event, fd: int)
    requires Inv(s) && e.Prune? && fd >= 0
    ensures Step(s, e).closed[fd] ==
            s.closed[fd] + if Attached(s, fd) && !Attached(Step(s, e), fd) then 1 else 0
    ensures Attached(Step(s, e), fd) ==> Attached(s, fd)
  {
    var s' := Step(s, e);
    var stale := StaleNodes(s, e.now, e.timeout);
    if Attached(s, fd) {
      var n :| n in s.peers && s.peers[n].fd == fd;
      assert n !in stale ==> n in s'.peers && s'.peers[n].fd == fd;
      assert n in stale <==> fd in Sockets(s, stale);
    } else {
      assert fd !in Sockets(s, stale);
    }
  }

  /** Erasing one more peer gives back its socket, once. */
  lemma SocketsOfOneMore(s: Net, done: set<nat>, n: nat)
    requires SocketsDistinct(s) && n in s.peers && n !in done
    ensures multiset(Sockets(s, done + {n})) == multiset(Sockets(s, done)) + SocketOf(s.peers[n])
  {
    if s.peers[n].fd >= 0 {
      assert s.peers[n].fd !in Sockets(s, done);
      assert Sockets(s, done + {n}) == Sockets(s, done) + {s.peers[n].fd};
    } else {
      assert Sockets(s, done + {n}) == Sockets(s, done);
    }
  }

  lemma PruneKeepsInv(s: Net, e: Event)
    requires Inv(s) && e.Prune? && Enabled(s, e)
    ensures Inv(Step(s, e))
  {
    var s' := Step(s, e);
    forall n | n in s'.peers ensures PeerInv(s', n) {
      assert PeerInv(s, n);
    }
    forall fd | fd >= 0
      ensures s'.accepted[fd] == s'.closed[fd] + if Attached(s', fd) then 1 else 0
    {
      PruneCloses(s, e, fd);
    }
  }

  lemma StepKeepsInv(s: Net, e: Event)
    requires Inv(s) && Enabled(s, e)
    ensures Inv(Step(s, e)) && Step(s, e).self == s.self
  {
    if e.Accept? {
      AcceptKeepsInv(s, e);
    } else if e.Prune? {
      PruneKeepsInv(s, e);
    } else if e.Tick? {
      TickKeepsInv(s, e);
    } else if !e.Ignored? {
      MessageKeepsInv(s, e);
    }
  }

  lemma {:induction false} RunKeepsInv(ss: seq<Net>, es: seq<Event>, k: nat)
    requires IsRun(ss, es) && k <= |es|
    ensures Inv(ss[k]) && ss[k].self == ss[0].self
  {
    if k == 0 {
    } else {
      RunKeepsInv(ss, es, k - 1);
      StepKeepsInv(ss[k - 1], es[k - 1]);
    }
  }

  // ---- Main results ----

  /** In every reachable table the local node is never a peer, each entry is filed under
      its own id, and a peer with an open socket is past DISCOVERED. */
  lemma TableIsConsistent(ss: seq<Net>, es: seq<Event>, k: nat)
    requires IsRun(ss, es) && k <= |es|
    ensures ss[0].self !in ss[k].peers
    ensures forall n | n in ss[k].peers :: ss[k].peers[n].nodeId == n
    ensures forall n | n in ss[k].peers && ss[k].peers[n].fd >= 0 :: Rank(ss[k].peers[n].state) >= 1
  {
    RunKeepsInv(ss, es, k);
    assert forall n | n in ss[k].peers :: PeerInv(ss[k], n);
  }

  /** As long as an entry is not erased, its state never moves backwards.  In
      particular a peer that said goodbye stays DISCONNECTED however often it
      announces itself again. */
  lemma {:induction false} PeersOnlyMoveForward(ss: seq<Net>, es: seq<Event>, i: nat, j: nat, n: nat)
    requires IsRun(ss, es) && i <= j <= |es|
    requires forall k | i <= k <= j :: n in ss[k].peers
    ensures Rank(ss[i].peers[n].state) <= Rank(ss[j].peers[n].state)
    decreases j - i
  {
    if i == j {
    } else {
      PeersOnlyMoveForward(ss, es, i, j - 1, n);
      assert ss[j] == Step(ss[j - 1], es[j - 1]);
    }
  }

  /** Every descriptor the daemon accepted has been closed, except those attached to a
      live peer, and no descriptor is attached to two peers. */
  lemma DescriptorsAreConserved(ss: seq<Net>, es: seq<Event>, k: nat, fd: int)
    requires IsRun(ss, es) && k <= |es| && fd >= 0
    ensures ss[k].accepted[fd] == ss[k].closed[fd] + if Attached(ss[k], fd) then 1 else 0
    ensures forall m, n | m in ss[k].peers && n in ss[k].peers && ss[k].peers[m].fd == ss[k].peers[n].fd == fd :: m == n
  {
    RunKeepsInv(ss, es, k);
  }

  /** A prune erases exactly the peers that were silent for longer than the timeout or
      have missed more than 24 heartbeats, keeps the others untouched, and closes a
      descriptor exactly when it belonged to an erased peer. */
  lemma PruneIsExact(ss: seq<Net>, es: seq<Event>, k: nat)
    requires IsRun(ss, es) && k < |es| && es[k].Prune?
    ensures forall n | n in ss[k].peers ::
              n !in ss[k + 1].peers <==>
              ss[k].peers[n].lastSeen + es[k].timeout < es[k].now || ss[k].peers[n].missed > 24
    ensures forall n | n in ss[k + 1].peers :: n in ss[k].peers && ss[k + 1].peers[n] == ss[k].peers[n]
    ensures forall fd | fd >= 0 ::
              ss[k + 1].closed[fd] == ss[k].closed[fd] +
                if Attached(ss[k], fd) && !Attached(ss[k + 1], fd) then 1 else 0
  {
    RunKeepsInv(ss, es, k);
    assert ss[k + 1] == Step(ss[k], es[k]);
    forall fd | fd >= 0
      ensures ss[k + 1].closed[fd] == ss[k].closed[fd] +
                if Attached(ss[k], fd) && !Attached(ss[k + 1], fd) then 1 else 0
    {
      PruneCloses(ss[k], es[k], fd);
    }
  }

  // ---- What the events say about a peer ----

  /** A message that shows node n is alive. */
  predicate HeardFrom(e: Event, n: nat) {
    (e.Announce? || e.Heartbeat? || e.HeartbeatAck?) && e.node == n
  }

  /** When node n was last heard from among the first k events. */
  ghost function LastHeard(es: seq<Event>, k: nat, n: nat): Option<nat>
    requires k <= |es|
  {
    if k == 0 then None
    else if HeardFrom(es[k - 1], n) then Some(es[k - 1].now)
    else LastHeard(es, k - 1, n)
  }

  /** Ticks since node n was last heard from at which it was CONNECTED or ACTIVE. */
  ghost function UnansweredTicks(ss: seq<Net>, es: seq<Event>, k: nat, n: nat): nat
    requires k <= |es| < |ss|
  {
    if k == 0 || HeardFrom(es[k - 1], n) then 0
    else UnansweredTicks(ss, es, k - 1, n) +
         if es[k - 1].Tick? && n in ss[k - 1].peers && ss[k - 1].peers[n].state in {Connected, Active} then 1 else 0
  }

  /** All ticks since node n was last heard from. */
  ghost function TicksSinceHeard(es: seq<Event>, k: nat, n: nat): nat
    requires k <= |es|
  {
    if k == 0 || HeardFrom(es[k - 1], n) then 0
    else TicksSinceHeard(es, k - 1, n) + if es[k - 1].Tick? then 1 else 0
  }

  lemma NextModulo(x: nat)
    ensures (x % TWO32 + 1) % TWO32 == (x + 1) % TWO32
  {
  }

  /** A live peer carries the time of the latest message of its node and counts, modulo
      2^32, the ticks since then at which it was CONNECTED or ACTIVE. */
  lemma {:induction false} PeerFollowsMessages(ss: seq<Net>, es: seq<Event>, k: nat, n: nat)
    requires IsRun(ss, es) && k <= |es| && n in ss[k].peers
    ensures LastHeard(es, k, n) == Some(ss[k].peers[n].lastSeen)
    ensures ss[k].peers[n].missed == UnansweredTicks(ss, es, k, n) % TWO32
  {
    RunKeepsInv(ss, es, k);
    assert PeerInv(ss[k], n);
    assert ss[k] == Step(ss[k - 1], es[k - 1]);
    PeerStep(ss[k - 1], es[k - 1], n);
    if HeardFrom(es[k - 1], n) {
    } else {
      PeerFollowsMessages(ss, es, k - 1, n);
      NextModulo(UnansweredTicks(ss, es, k - 1, n));
    }
  }

  /** One step of a peer that is in the table afterwards. */
  lemma PeerStep(s: Net, e: Event, n: nat)
    requires Enabled(s, e) && n in Step(s, e).peers && n != s.self
    ensures var p := Step(s, e).peers[n];
            if HeardFrom(e, n) then p.lastSeen == e.now && p.missed == 0
            else
              && n in s.peers && p.lastSeen == s.peers[n].lastSeen
              && p.missed == if e.Tick? && s.peers[n].state in {Connected, Active}
                             then (s.peers[n].missed + 1) % TWO32 else s.peers[n].missed
  {
  }

  lemma {:induction false} UnansweredAreTicks(ss: seq<Net>, es: seq<Event>, k: nat, n: nat)
    requires k <= |es| < |ss|
    ensures UnansweredTicks(ss, es, k, n) <= TicksSinceHeard(es, k, n)
  {
    if k == 0 {
    } else {
      UnansweredAreTicks(ss, es, k - 1, n);
    }
  }

  /** Which peers a prune erases, from the messages alone; in particular a peer heard from
      within the timeout and within the last 24 ticks survives. */
  lemma PruneFollowsMessages(ss: seq<Net>, es: seq<Event>, k: nat, n: nat)
    requires IsRun(ss, es) && k < |es| && es[k].Prune? && n in ss[k].peers
    ensures LastHeard(es, k, n).Some?
    ensures n !in ss[k + 1].peers <==>
            || LastHeard(es, k, n).value + es[k].timeout < es[k].now
            || UnansweredTicks(ss, es, k, n) % TWO32 > 24
    ensures es[k].now <= LastHeard(es, k, n).value + es[k].timeout && TicksSinceHeard(es, k, n) <= 24 ==>
              n in ss[k + 1].peers
  {
    PeerFollowsMessages(ss, es, k, n);
    PruneIsExact(ss, es, k);
    UnansweredAreTicks(ss, es, k, n);
  }

  /** A heartbeat or an acknowledgement of a known peer makes it ACTIVE if it was CONNECTED,
      refreshes it, and changes nothing else in the table. */
  lemma HeartbeatConfirms(ss: seq<Net>, es: seq<Event>, k: nat)
    requires IsRun(ss, es) && k < |es| && (es[k].Heartbeat? || es[k].HeartbeatAck?) && es[k].node in ss[k].peers
    ensures var p := ss[k].peers[es[k].node];
            var state := if p.state == Connected then Active else p.state;
            var p' := p.(lastSeen := es[k].now, missed := 0, state := state);
            ss[k + 1] == ss[k].(peers := ss[k].peers[es[k].node := p'])
  {
    RunKeepsInv(ss, es, k);
    assert PeerInv(ss[k], es[k].node);
    assert ss[k + 1] == Step(ss[k], es[k]);
  }

  /** A node other than the local one becomes known exactly by an announcement or a heartbeat,
      and only a prune makes a known one unknown. */
  lemma MembershipFollowsEvents(ss: seq<Net>, es: seq<Event>, k: nat, n: nat)
    requires IsRun(ss, es) && k < |es|
    ensures n !in ss[k].peers ==>
              (n in ss[k + 1].peers <==> n != ss[0].self && (es[k].Announce? || es[k].Heartbeat?) && es[k].node == n)
    ensures n in ss[k].peers && n !in ss[k + 1].peers ==> es[k].Prune?
  {
    RunKeepsInv(ss, es, k);
    assert ss[k + 1] == Step(ss[k], es[k]);
  }

  /** An announcement of a known peer gives it the announced address, port and GPU count,
      and makes it CONNECTED if it was only DISCOVERED; an announcement or heartbeat of an
      unknown node creates a DISCOVERED peer without a socket; the local node is ignored. */
  lemma AnnouncementIsExact(ss: seq<Net>, es: seq<Event>, k: nat)
    requires IsRun(ss, es) && k < |es|
    requires es[k].Announce? || (es[k].Heartbeat? && es[k].node !in ss[k].peers)
    ensures var e := es[k];
            if e.node == ss[k].self then ss[k + 1] == ss[k]
            else if e.node in ss[k].peers then
              var p := ss[k].peers[e.node];
              var state := if p.state == Discovered then Connected else p.state;
              ss[k + 1] == ss[k].(peers := ss[k].peers[e.node :=
                Peer(e.node, e.address, e.port, state, e.count, e.now, p.lastHeartbeat, 0, p.fd)])
            else
              && ss[k + 1].peers == ss[k].peers[e.node :=
                   Peer(e.node, e.address, e.port, Discovered, e.count, e.now, e.now, 0, -1)]
              && |ss[k + 1].gpus| == |ss[k].gpus| + e.count
              && forall i | 0 <= i < e.count :: ss[k + 1].gpus[|ss[k].gpus| + i] == RemoteGpu(e.node, i, e.address)
  {
    RunKeepsInv(ss, es, k);
    if es[k].node in ss[k].peers {
      assert PeerInv(ss[k], es[k].node);
    }
    assert ss[k + 1] == Step(ss[k], es[k]);
  }

  /** An accepted connection goes to a peer of its address that has no socket, or is closed if
      there is none; no other peer changes. */
  lemma AcceptIsExact(ss: seq<Net>, es: seq<Event>, k: nat)
    requires IsRun(ss, es) && k < |es| && es[k].Accept?
    ensures match es[k].choice
            case Some(n) =>
              && n in ss[k].peers && ss[k].peers[n].address == es[k].address && ss[k].peers[n].fd < 0
              && ss[k + 1].closed == ss[k].closed
              && (var p := ss[k].peers[n];
                  var state := if p.state == Discovered then Connected else p.state;
                  ss[k + 1].peers == ss[k].peers[n := p.(fd := es[k].fd, state := state)])
            case None =>
              && (forall n | n in ss[k].peers :: ss[k].peers[n].address != es[k].address || ss[k].peers[n].fd >= 0)
              && ss[k + 1].peers == ss[k].peers && ss[k + 1].closed == ss[k].closed + multiset{es[k].fd}
  {
    assert Enabled(ss[k], es[k]) && ss[k + 1] == Step(ss[k], es[k]);
    if es[k].choice.None? {
      forall n | n in ss[k].peers ensures ss[k].peers[n].address != es[k].address || ss[k].peers[n].fd >= 0 {
        assert !Matches(ss[k].peers[n], es[k].address);
      }
    }
  }

  // -- The state of a peer, from the events since it became known --

  /** Event e brings node n a second announcement or a connection. */
  predicate Connects(e: Event, n: nat) {
    (e.Announce? && e.node == n) || (e.Accept? && e.choice == Some(n))
  }

  predicate Confirms(e: Event, n: nat) {
    (e.Heartbeat? || e.HeartbeatAck?) && e.node == n
  }

  /** Among the events from i to k there is a connecting one. */
  ghost predicate HasConnected(es: seq<Event>, i: nat, k: nat, n: nat)
    requires k <= |es|
  {
    exists a | i <= a < k :: Connects(es[a], n)
  }

  /** ... and a confirming one after it. */
  ghost predicate HasConfirmed(es: seq<Event>, i: nat, k: nat, n: nat)
    requires k <= |es|
  {
    exists b | i <= b < k :: Confirms(es[b], n) && HasConnected(es, i, b, n)
  }

  ghost predicate HasLeft(es: seq<Event>, i: nat, k: nat, n: nat)
    requires k <= |es|
  {
    exists b | i <= b < k :: es[b] == Goodbye(n)
  }

  /** One more event, for each of the three. */
  lemma OneMoreEvent(es: seq<Event>, i: nat, k: nat, n: nat)
    requires i <= k < |es|
    ensures HasConnected(es, i, k + 1, n) <==> HasConnected(es, i, k, n) || Connects(es[k], n)
    ensures HasConfirmed(es, i, k + 1, n) <==>
            HasConfirmed(es, i, k, n) || (Confirms(es[k], n) && HasConnected(es, i, k, n))
    ensures HasLeft(es, i, k + 1, n) <==> HasLeft(es, i, k, n) || es[k] == Goodbye(n)
  {
    if HasConnected(es, i, k, n) {
      var a :| i <= a < k && Connects(es[a], n);
      assert i <= a < k + 1;
    }
    if HasConfirmed(es, i, k, n) {
      var b :| i <= b < k && Confirms(es[b], n) && HasConnected(es, i, b, n);
      assert i <= b < k + 1;
    }
    if HasLeft(es, i, k, n) {
      var b :| i <= b < k && es[b] == Goodbye(n);
      assert i <= b < k + 1;
    }
  }

  /** The state that goes with what has happened. */
  function StateOf(left: bool, confirmed: bool, connected: bool): PeerState {
    if left then Disconnected else if confirmed then Active else if connected then Connected else Discovered
  }

  /** The state of a peer that became known with event i, from the events since then: it is
      DISCONNECTED once it has said goodbye; otherwise ACTIVE once a heartbeat or an
      acknowledgement has followed a further announcement or a connection, CONNECTED once
      there has been one of those, and DISCOVERED before. */
  lemma {:induction false} StateFollowsEvents(ss: seq<Net>, es: seq<Event>, i: nat, k: nat, n: nat)
    requires IsRun(ss, es) && i < k <= |es| && n !in ss[i].peers
    requires forall m | i < m <= k :: n in ss[m].peers
    ensures ss[k].peers[n].state == StateSince(es, i + 1, k, n)
  {
    var states := StatesOf(ss, es, i, k, n);
    StatesFollow(states, es, i + 1, k - i - 1, n);
  }

  /** The states of node n from event i + 1 to event k. */
  lemma {:induction false} StatesOf(ss: seq<Net>, es: seq<Event>, i: nat, k: nat, n: nat)
    returns (states: seq<PeerState>)
    requires IsRun(ss, es) && i < k <= |es| && n !in ss[i].peers
    requires forall m | i < m <= k :: n in ss[m].peers
    ensures |states| == k - i && states[0] == Discovered && states[k - i - 1] == ss[k].peers[n].state
    ensures forall m | 0 <= m < |states| - 1 :: states[m + 1] == StateAfter(states[m], es[i + 1 + m], n)
    decreases k
  {
    if k == i + 1 {
      StartsDiscovered(ss, es, i, n);
      states := [Discovered];
    } else {
      var before := StatesOf(ss, es, i, k - 1, n);
      StateInRun(ss, es, k - 1, n);
      states := before + [ss[k].peers[n].state];
    }
  }

  lemma {:induction false} StatesFollow(states: seq<PeerState>, es: seq<Event>, i: nat, j: nat, n: nat)
    requires j < |states| && i + |states| - 1 <= |es| && states[0] == Discovered
    requires forall m | 0 <= m < |states| - 1 :: states[m + 1] == StateAfter(states[m], es[i + m], n)
    ensures states[j] == StateSince(es, i, i + j, n)
  {
    if j == 0 {
      NothingSince(es, i, n);
    } else {
      StatesFollow(states, es, i, j - 1, n);
      StateOfOneMore(es, i, i + j - 1, n);
      assert states[j - 1 + 1] == StateAfter(states[j - 1], es[i + (j - 1)], n);
    }
  }

  /** What has happened to node n between events i and k, as a state. */
  ghost function StateSince(es: seq<Event>, i: nat, k: nat, n: nat): PeerState
    requires k <= |es|
  {
    StateOf(HasLeft(es, i, k, n), HasConfirmed(es, i, k, n), HasConnected(es, i, k, n))
  }

  lemma StateOfOneMore(es: seq<Event>, i: nat, k: nat, n: nat)
    requires i <= k < |es|
    ensures StateSince(es, i, k + 1, n) == StateAfter(StateSince(es, i, k, n), es[k], n)
  {
    OneMoreEvent(es, i, k, n);
    ConfirmedIsConnected(es, i, k, n);
  }

  lemma NothingSince(es: seq<Event>, i: nat, n: nat)
    requires i <= |es|
    ensures StateSince(es, i, i, n) == Discovered
  {
  }

  lemma StartsDiscovered(ss: seq<Net>, es: seq<Event>, i: nat, n: nat)
    requires IsRun(ss, es) && i < |es| && n !in ss[i].peers && n in ss[i + 1].peers
    ensures ss[i + 1].peers[n].state == Discovered
  {
    assert ss[i + 1] == Step(ss[i], es[i]);
  }

  lemma StateInRun(ss: seq<Net>, es: seq<Event>, k: nat, n: nat)
    requires IsRun(ss, es) && k < |es| && n in ss[k].peers && n in ss[k + 1].peers
    ensures ss[k + 1].peers[n].state == StateAfter(ss[k].peers[n].state, es[k], n)
  {
    RunKeepsInv(ss, es, k);
    assert PeerInv(ss[k], n);
    StateStep(ss[k], es[k], n);
  }

  function StateAfter(state: PeerState, e: Event, n: nat): PeerState {
    if e == Goodbye(n) then Disconnected
    else if Connects(e, n) && state == Discovered then Connected
    else if Confirms(e, n) && state == Connected then Active
    else state
  }

  lemma ConfirmedIsConnected(es: seq<Event>, i: nat, k: nat, n: nat)
    requires k <= |es|
    ensures HasConfirmed(es, i, k, n) ==> HasConnected(es, i, k, n)
  {
    if HasConfirmed(es, i, k, n) {
      var b :| i <= b < k && Confirms(es[b], n) && HasConnected(es, i, b, n);
      var a :| i <= a < b && Connects(es[a], n);
      assert i <= a < k;
    }
  }

  /** One step of a peer that stays in the table. */
  lemma StateStep(s: Net, e: Event, n: nat)
    requires Enabled(s, e) && n in s.peers && n in Step(s, e).peers && n != s.self
    ensures Step(s, e).peers[n].state == StateAfter(s.peers[n].state, e, n)
  {
  }

  // ---- The registry of remote GPUs ----

  function EntriesOf(gpus: seq<RemoteGpu>, n: nat): nat {
    if gpus == [] then 0
    else EntriesOf(gpus[..|gpus| - 1], n) + if gpus[|gpus| - 1].node == n then 1 else 0
  }

  /** The GPU count announced by the event that made n known, 0 for other events. */
  ghost function Introduced(s: Net, e: Event, s': Net, n: nat): nat {
    if (e.Announce? || e.Heartbeat?) && e.node == n && n !in s.peers && n in s'.peers then e.count else 0
  }

  ghost function TotalIntroduced(ss: seq<Net>, es: seq<Event>, k: nat, n: nat): nat
    requires k <= |es| < |ss|
  {
    if k == 0 then 0
    else TotalIntroduced(ss, es, k - 1, n) + Introduced(ss[k - 1], es[k - 1], ss[k], n)
  }

  lemma {:induction false} EntriesOfBatch(gpus: seq<RemoteGpu>, node: nat, count: nat, address: string, n: nat)
    ensures EntriesOf(gpus + GpusOf(node, count, address), n)
            == EntriesOf(gpus, n) + if node == n then count else 0
  {
    var all := gpus + GpusOf(node, count, address);
    if count == 0 {
      assert all == gpus;
    } else {
      EntriesOfBatch(gpus, node, count - 1, address, n);
      assert all[..|all| - 1] == gpus + GpusOf(node, count - 1, address);
    }
  }

  /** The registry holds, for each node, the sum of the GPU counts announced each time
      that node went from unknown to known: pruning never removes an entry, so a node
      that is pruned and comes back is registered again. */
  lemma {:induction false} RegistryCountsIntroductions(ss: seq<Net>, es: seq<Event>, k: nat, n: nat)
    requires IsRun(ss, es) && k <= |es|
    ensures EntriesOf(ss[k].gpus, n) == TotalIntroduced(ss, es, k, n)
  {
    if k == 0 {
    } else {
      RegistryCountsIntroductions(ss, es, k - 1, n);
      var s, e := ss[k - 1], es[k - 1];
      assert ss[k] == Step(s, e);
      if (e.Announce? || e.Heartbeat?) && e.node != s.self && e.node !in s.peers {
        EntriesOfBatch(s.gpus, e.node, e.count, e.address, n);
      }
    }
  }

  // ---- The table itself ----

  class PeerTable {
    const self: nat
    var peers: map<nat, Peer>
    var gpus: seq<RemoteGpu>
    ghost var accepted: multiset<int>
    ghost var closed: multiset<int>

    ghost function View(): Net
      reads this
    {
      Net(self, peers, gpus, accepted, closed)
    }

    constructor (self: nat)
      ensures Initial(View()) && this.self == self
    {
      this.self := self;
      peers, gpus := map[], [];
      accepted, closed := multiset{}, multiset{};
    }

    /** notifyRemoteGpuDiscovered: one addRemoteGpu per advertised GPU. */
    method NotifyRemoteGpus(node: nat, count: nat, address: string)
      modifies this`gpus
      ensures gpus == old(gpus) + GpusOf(node, count, address)
      ensures |gpus| == |old(gpus)| + count
      ensures forall i | 0 <= i < count :: gpus[|old(gpus)| + i] == RemoteGpu(node, i, address)
    {
      for i := 0 to count
        invariant gpus == old(gpus) + GpusOf(node, i, address)
      {
        gpus := gpus + [RemoteGpu(node, i, address)];
      }
    }

    method HandleAnnouncement(node: nat, address: string, port: nat, count: nat, now: nat)
      modifies this`peers, this`gpus
      ensures View() == Announced(old(View()), node, address, port, count, now)
    {
      if node == self {
        return;
      }
      if node in peers {
        var peer := peers[node];
        peer := peer.(address := address, tcpPort := port, gpuCount := count, lastSeen := now);
        if peer.state == Discovered {
          peer := peer.(state := Connected);
        }
        peers := peers[node := peer.(missed := 0)];
      } else {
        peers := peers[node := Peer(node, address, port, Discovered, count, now, now, 0, -1)];
        NotifyRemoteGpus(node, count, address);
      }
    }

    /** processDiscoveryMessage: ANNOUNCE, ANNOUNCE_REPLY and GPU_ANNOUNCE are 0, 1 and 5. */
    method ProcessMessage(kind: nat, node: nat, address: string, port: nat, count: nat, now: nat)
      modifies this`peers, this`gpus
      ensures kind == 0 || kind == 1 || kind == 5 ==>
                View() == Step(old(View()), Announce(node, address, port, count, now))
      ensures kind == 2 ==> View() == Step(old(View()), Heartbeat(node, address, port, count, now))
      ensures kind == 3 ==> View() == Step(old(View()), HeartbeatAck(node, now))
      ensures kind == 4 ==> View() == Step(old(View()), Goodbye(node))
      ensures kind > 5 ==> View() == old(View())
    {
      if kind == 0 || kind == 1 || kind == 5 {
        HandleAnnouncement(node, address, port, count, now);
      } else if kind == 2 {
        if node == self {
          return;
        }
        if node in peers {
          Confirm(node, now);
        } else {
          HandleAnnouncement(node, address, port, count, now);
        }
      } else if kind == 3 {
        if node != self && node in peers {
          Confirm(node, now);
        }
      } else if kind == 4 {
        if node in peers {
          peers := peers[node := peers[node].(state := Disconnected)];
        }
      }
    }

    method Confirm(node: nat, now: nat)
      requires node in peers
      modifies this`peers
      ensures peers == old(peers)[node := Confirmed(old(peers)[node], now)]
    {
      var peer := peers[node].(lastSeen := now, missed := 0);
      if peer.state == Connected {
        peer := peer.(state := Active);
      }
      peers := peers[node := peer];
    }

    /** acceptPeerTcpConnection: the first matching entry met while iterating over the
        unordered table gets the socket; without a match the socket is closed. */
    method AcceptPeer(fd: int, address: string) returns (choice: Option<nat>)
      requires fd >= 0 && !Attached(View(), fd)
      modifies this
      ensures gpus == old(gpus)
      ensures Enabled(old(View()), Accept(fd, address, choice))
      ensures View() == Step(old(View()), Accept(fd, address, choice))
    {
      accepted := accepted + multiset{fd};
      var todo := peers.Keys;
      while todo != {}
        invariant todo <= peers.Keys
        invariant forall n | n in peers && n !in todo :: !Matches(peers[n], address)
        decreases todo
      {
        var n :| n in todo;
        todo := todo - {n};
        if peers[n].address == address && peers[n].fd < 0 {
          var peer := peers[n].(fd := fd);
          if peer.state == Discovered {
            peer := peer.(state := Connected);
          }
          peers := peers[n := peer];
          return Some(n);
        }
      }
      closed := closed + multiset{fd};
      choice := None;
    }

    /** The heartbeat part of discoveryThreadLoop; the clock is read anew for each peer. */
    method HeartbeatTick(readings: map<nat, nat>)
      requires peers.Keys <= readings.Keys
      modifies this`peers
      ensures View() == Step(old(View()), Tick(readings))
    {
      var todo := peers.Keys;
      while todo != {}
        invariant todo <= peers.Keys == old(peers).Keys
        invariant forall n | n in peers ::
                    peers[n] == if n in todo then old(peers)[n] else Beaten(old(peers)[n], readings[n])
        decreases todo
      {
        var n :| n in todo;
        todo := todo - {n};
        if peers[n].state == Active || peers[n].state == Connected {
          peers := peers[n := peers[n].(lastHeartbeat := readings[n], missed := (peers[n].missed + 1) % TWO32)];
        }
      }
    }

    method CollectStale(now: nat, timeout: nat) returns (stale: set<nat>)
      ensures stale == StaleNodes(View(), now, timeout)
    {
      stale := {};
      var todo := peers.Keys;
      while todo != {}
        invariant todo <= peers.Keys
        invariant stale == set n | n in peers && n !in todo && Stale(peers[n], now, timeout)
        decreases todo
      {
        var n :| n in todo;
        todo := todo - {n};
        var elapsed := if now > peers[n].lastSeen then now - peers[n].lastSeen else 0;
        if elapsed > timeout || peers[n].missed > 24 {
          stale := stale + {n};
        }
      }
    }

    /** pruneStalePeers: collect the stale ids, then close and erase them one by one. */
    method PruneStale(now: nat, timeout: nat)
      requires SocketsDistinct(View())
      modifies this`peers, this`closed
      ensures View() == Step(old(View()), Prune(now, timeout))
    {
      var stale := CollectStale(now, timeout);
      EraseAll(stale);
    }

    /** The peers in `done` are gone from s and their sockets closed. */
    ghost predicate Erased(s: Net, done: set<nat>)
      reads this
    {
      && peers.Keys == s.peers.Keys - done
      && (forall n | n in peers :: peers[n] == s.peers[n])
      && closed == s.closed + multiset(Sockets(s, done))
    }

    method Erase(n: nat, ghost s: Net, ghost done: set<nat>)
      requires SocketsDistinct(s) && Erased(s, done) && n in peers
      modifies this`peers, this`closed
      ensures Erased(s, done + {n})
    {
      SocketsOfOneMore(s, done, n);
      if peers[n].fd >= 0 {
        closed := closed + multiset{peers[n].fd};
      }
      peers := peers - {n};
    }

    method EraseAll(stale: set<nat>)
      requires SocketsDistinct(View()) && stale <= peers.Keys
      modifies this`peers, this`closed
      ensures Erased(old(View()), stale)
    {
      ghost var s := View();
      ghost var done: set<nat> := {};
      var todo := stale;
      while todo != {}
        invariant Splits(stale, done, todo)
        invariant Erased(s, done)
        decreases todo
      {
        var n :| n in todo;
        SplitMoves(stale, done, todo, n);
        Erase(n, s, done);
        done := done + {n};
        todo := todo - {n};
      }
      assert done == stale;
    }

    /** The elements of `all` are either done or to do. */
    static ghost predicate Splits(all: set<nat>, done: set<nat>, todo: set<nat>) {
      forall n :: (n in all <==> n in done || n in todo) && !(n in done && n in todo)
    }

    static lemma SplitMoves(all: set<nat>, done: set<nat>, todo: set<nat>, n: nat)
      requires Splits(all, done, todo) && n in todo
      ensures n in all && n !in done && Splits(all, done + {n}, todo - {n})
    {
    }
  }
}
