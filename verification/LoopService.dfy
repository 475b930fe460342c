/** What the main loop does for those who talk to it, and when. */
module LoopService {
  import opened Protocol
  import opened TcpSerializer
  import opened Sessions
  import opened SessionLog
  import opened SessionLaws
  import opened SessionRuns
  import opened Environment
  import opened TcpFraming
  import opened TcpHandlers
  import opened UdpServers
  import opened LoopSteps
  import opened ShutdownSafety

  // ----- TCP clients -----

  /** A readable client of a loop that goes on is served what it has sent: the work,
      the replies, the handler's state, its leftover and its fate are those of one
      pass over its leftover and the new bytes; nobody else is touched. */
  lemma ClientIsServed(c: Settings, s: Loop, fd: int, data: Bytes, closed: bool, choice: Choice)
    requires !s.Halted() && fd in s.tcp.clients && data != []
    ensures var s' := Exec(c, s, Ev(TcpReadable(fd, Packet(data, closed))), choice);
            && HasEffect(s.tcp, s'.tcp, fd, Drive(Stepper(c.services), s.tcp.state, s.tcp.clients[fd] + data))
            && BytesOf(s'.tcp.journal, fd) == BytesOf(s.tcp.journal, fd) + data
            && forall other :: other != fd ==> SamePast(s.tcp, s'.tcp, other)
  {
    var h := Stepper(c.services);
    assert HandleClientData(h, s.tcp, fd, Packet(data, closed)) == HandleClientData(h, s.tcp, fd, Packet(data, false));
    DataEffect(h, s.tcp, fd, data);
    DataJournal(h, s.tcp, fd, data, fd);
    forall other | other != fd ensures SamePast(s.tcp, HandleClientData(h, s.tcp, fd, Packet(data, false)).0, other) {
      DataSpares(h, s.tcp, fd, data, other);
    }
  }

  /** Without data a client is dropped iff the receive failed or its peer is gone, and
      nothing else changes. */
  lemma SilentClient(c: Settings, s: Loop, fd: int, packet: Packet, choice: Choice)
    requires !s.Halted() && (packet.Packet? ==> packet.data == [])
    ensures var s' := Exec(c, s, Ev(TcpReadable(fd, packet)), choice);
            && s'.tcp.clients
               == (if packet.ReceiveFailed? || packet.peerClosed then s.tcp.clients - {fd} else s.tcp.clients)
            && s' == s.(tcp := s.tcp.(clients := s'.tcp.clients))
  {
    if fd !in s.tcp.clients { assert s.tcp.clients - {fd} == s.tcp.clients; }
  }

  /** Another descriptor, such as the drain timer's after the draining, is ignored. */
  lemma StrangerIsIgnored(c: Settings, s: Loop, fd: int, packet: Packet, choice: Choice)
    requires fd !in s.tcp.clients
    ensures Exec(c, s, Ev(TcpReadable(fd, packet)), choice) == s
  {
  }

  /** The loop lets a connection in. */
  predicate Admits(s: Loop, u: Micro, fd: int) {
    !s.Halted() && s.phase == RUNNING && u == Ev(TcpAcceptable(NewSocket(fd)))
  }

  /** The loop reads these bytes from a client. */
  function Read(s: Loop, u: Micro, fd: int): Bytes {
    if !s.Halted() && fd in s.tcp.clients && u.Ev? && u.e.TcpReadable? && u.e.fd == fd && u.e.packet.Packet?
    then u.e.packet.data else []
  }

  /** The loop drops a client: its receive failed, its peer is gone, serving it failed,
      or all servers stop. */
  ghost predicate Drops(c: Settings, s: Loop, u: Micro, fd: int) {
    !s.Halted() &&
    match u
    case Top => s.phase == STOPPING
    case Ev(e) =>
      && e.TcpReadable? && e.fd == fd && fd in s.tcp.clients
      && (match e.packet
          case ReceiveFailed => true
          case Packet(data, closed) =>
            if data == [] then closed else !Drive(Stepper(c.services), s.tcp.state, s.tcp.clients[fd] + data).alive)
    case _ => false
  }

  /** A step that is no business of this client. */
  lemma OtherStep(c: Settings, s: Loop, u: Micro, choice: Choice, fd: int)
    requires PhaseInv(c, s) && !Admits(s, u, fd) && !(u.Ev? && u.e.TcpReadable?)
    ensures var t, t' := s.tcp, Exec(c, s, u, choice).tcp;
            && BytesOf(t'.journal, fd) == BytesOf(t.journal, fd)
            && (fd in t'.clients <==> fd in t.clients && !Drops(c, s, u, fd))
  {
    if !s.Halted() {
      match u
      case Top => TopKeepsTable(c, s);
      case Check => CheckMeans(c, s, choice);
      case Broken =>
      case Ev(e) =>
        match e
        case Timer => if s.phase == DRAINING && s.armed { ExpireKeepsTable(ReadTimer(c, s), Due(c, s), choice.firsts); }
        case UdpReadable(arrived) => DatagramsKeepTable(s, arrived);
        case TcpAcceptable(incoming) => ConnectionMeans(s.tcp, incoming);
        case _ =>
    }
  }

  lemma DataStep(c: Settings, s: Loop, from: int, data: Bytes, closed: bool, choice: Choice, fd: int)
    requires !s.Halted() && from in s.tcp.clients && data != []
    ensures var u := Ev(TcpReadable(from, Packet(data, closed)));
            var t, t' := s.tcp, Exec(c, s, u, choice).tcp;
            && BytesOf(t'.journal, fd) == BytesOf(t.journal, fd) + (if fd == from then data else [])
            && (fd in t'.clients
                <==> fd in t.clients
                     && !(fd == from && !Drive(Stepper(c.services), t.state, t.clients[from] + data).alive))
  {
    ClientIsServed(c, s, from, data, closed, choice);
    if from != fd {
      assert SamePast(s.tcp, Exec(c, s, Ev(TcpReadable(from, Packet(data, closed))), choice).tcp, fd);
      assert BytesOf(s.tcp.journal, fd) + [] == BytesOf(s.tcp.journal, fd);
    }
  }

  lemma ReadStep(c: Settings, s: Loop, from: int, packet: Packet, choice: Choice, fd: int)
    ensures var u := Ev(TcpReadable(from, packet));
            var t, t' := s.tcp, Exec(c, s, u, choice).tcp;
            && BytesOf(t'.journal, fd) == BytesOf(t.journal, fd) + Read(s, u, fd)
            && (fd in t'.clients <==> fd in t.clients && !Drops(c, s, u, fd))
  {
    assert BytesOf(s.tcp.journal, fd) + [] == BytesOf(s.tcp.journal, fd);
    if s.Halted() {
    } else if from !in s.tcp.clients {
      StrangerIsIgnored(c, s, from, packet, choice);
    } else if packet.Packet? && packet.data != [] {
      DataStep(c, s, from, packet.data, packet.peerClosed, choice, fd);
    } else {
      SilentClient(c, s, from, packet, choice);
    }
  }

  lemma AdmitStep(c: Settings, s: Loop, u: Micro, choice: Choice, fd: int)
    requires PhaseInv(c, s) && Admits(s, u, fd)
    ensures var t' := Exec(c, s, u, choice).tcp;
            fd in t'.clients && t'.clients[fd] == [] && BytesOf(t'.journal, fd) == []
  {
    ConnectionMeans(s.tcp, u.e.incoming);
  }

  /** What the events of a run have brought from a descriptor since it was last let in,
      while it was in the table. */
  ghost function Brought(c: Settings, s: Loop, us: seq<Micro>, cs: seq<Choice>, fd: int): Bytes
    requires |us| == |cs|
    decreases |us|
  {
    var n := |us|;
    if n == 0 then []
    else
      var before := ExecAll(c, s, us[..n - 1], cs[..n - 1]);
      if Admits(before, us[n - 1], fd) then []
      else Brought(c, s, us[..n - 1], cs[..n - 1], fd) + Read(before, us[n - 1], fd)
  }

  /** The descriptor was let in and not dropped since. */
  ghost predicate Stays(c: Settings, s: Loop, us: seq<Micro>, cs: seq<Choice>, fd: int)
    requires |us| == |cs|
    decreases |us|
  {
    var n := |us|;
    n > 0 &&
    var before := ExecAll(c, s, us[..n - 1], cs[..n - 1]);
    Admits(before, us[n - 1], fd) || (Stays(c, s, us[..n - 1], cs[..n - 1], fd) && !Drops(c, before, us[n - 1], fd))
  }

  /** In every reachable state the table holds exactly the descriptors let in while
      RUNNING and not dropped since, and a descriptor's bytes are exactly what events
      brought from it since it was let in. */
  lemma {:induction false} TableFollowsEvents(
      c: Settings, s: Loop, us: seq<Micro>, cs: seq<Choice>, blacklist: set<Imsi>, w: World, fd: int)
    requires Reachable(c, s, us, cs, blacklist, w) && c.timeout > 0
    ensures fd in s.tcp.clients <==> Stays(c, Started(blacklist, w), us, cs, fd)
    ensures BytesOf(s.tcp.journal, fd) == Brought(c, Started(blacklist, w), us, cs, fd)
    decreases |us|
  {
    var n := |us|;
    if n > 0 {
      var before := ExecAll(c, Started(blacklist, w), us[..n - 1], cs[..n - 1]);
      var u, choice := us[n - 1], cs[n - 1];
      TableFollowsEvents(c, before, us[..n - 1], cs[..n - 1], blacklist, w, fd);
      ReachableInv(c, before, us[..n - 1], cs[..n - 1], blacklist, w);
      if Admits(before, u, fd) {
        AdmitStep(c, before, u, choice, fd);
      } else if u.Ev? && u.e.TcpReadable? {
        ReadStep(c, before, u.e.fd, u.e.packet, choice, fd);
      } else {
        OtherStep(c, before, u, choice, fd);
        assert BytesOf(s.tcp.journal, fd) + [] == BytesOf(s.tcp.journal, fd);
      }
    }
  }

  /** So each client in the table has been served every complete message of what the
      events brought from it, and its buffer holds the rest. */
  lemma ClientsAreServedWhatTheySent(
      c: Settings, s: Loop, us: seq<Micro>, cs: seq<Choice>, blacklist: set<Imsi>, w: World, fd: int)
    requires Reachable(c, s, us, cs, blacklist, w) && c.timeout > 0
    ensures var sent := Brought(c, Started(blacklist, w), us, cs, fd);
            && RequestsOf(s.tcp.journal, fd) <= Parse(sent).0
            && (Stays(c, Started(blacklist, w), us, cs, fd) ==>
                  fd in s.tcp.clients && Parse(sent) == (RequestsOf(s.tcp.journal, fd), s.tcp.clients[fd]))
  {
    TableFollowsEvents(c, s, us, cs, blacklist, w, fd);
    ServerKeepsClientsApart(c, s, us, cs, blacklist, w);
    assert RequestsOf(s.tcp.journal, fd) <= Parse(BytesOf(s.tcp.journal, fd)).0;
  }

  // ----- Subscribers -----

  /** Until the servers stop, whatever waits on the UDP socket is taken in batches: each
      datagram decided on gets the answer it deserves, the manager does what the batch
      asks for, and the rest waits. */
  lemma DatagramsAreServed(
      c: Settings, s: Loop, us: seq<Micro>, cs: seq<Choice>, blacklist: set<Imsi>, w: World,
      arrived: seq<Datagram>, choice: Choice)
    requires Reachable(c, s, us, cs, blacklist, w) && c.timeout > 0 && !s.Halted()
    ensures var s' := Exec(c, s, Ev(UdpReadable(arrived)), choice); var queue := s.incoming + arrived;
            var n := Decided(queue) - if Unsent(queue) then 1 else 0;
            && |s'.sent| == |s.sent| + n && s.sent <= s'.sent
            && (forall i :: 0 <= i < n ==> s'.sent[|s.sent| + i] == Deserved(s.Mgr(), queue, i))
            && s'.Mgr() == Sessions.ApplyAll(s.Mgr(), Creations(s.tcp.state.world, queue))
            && s'.incoming == Left(queue)
  {
    var queue := s.incoming + arrived;
    ReachableInv(c, s, us, cs, blacklist, w);
    RepliesExactly(s.Mgr(), s.tcp.state.world, queue);
    BatchMeans(s.Mgr(), s.tcp.state.world, queue);
  }

  // ----- The loop's own business -----

  lemma HeadFirst(c: Settings, s: Loop, turn: Turn, cs: seq<Choice>)
    requires |cs| == |Steps(turn)|
    ensures ExecAll(c, s, Steps(turn), cs) == ExecAll(c, Exec(c, s, Top, cs[0]), Body(turn), cs[1..])
  {
    ExecAllSnoc(c, s, [], [], Top, cs[0]);
    assert [] + [Top] == [Top] && [] + [cs[0]] == [cs[0]] && cs == [cs[0]] + cs[1..];
    ExecAllAppend(c, s, [Top], [cs[0]], Body(turn), cs[1..]);
  }

  /** An interrupted wait ends a turn after its head, a failed one ends the loop. */
  lemma TurnWithoutEvents(c: Settings, s: Loop, cs: seq<Choice>)
    requires 1 <= |cs| <= 2
    ensures var head := Exec(c, s, Top, cs[0]);
            && |Steps(Interrupted)| == 1 && |Steps(Failure)| == 2
            && (|cs| == 1 ==> ExecAll(c, s, Steps(Interrupted), cs) == head)
            && (|cs| == 2 ==>
                  ExecAll(c, s, Steps(Failure), cs) == if head.Halted() then head else head.(exited := true))
  {
    if |cs| == 1 {
      HeadFirst(c, s, Interrupted, cs);
    } else {
      HeadFirst(c, s, Failure, cs);
      ExecAllSnoc(c, Exec(c, s, Top, cs[0]), [], [], Broken, cs[1]);
      assert [] + [Broken] == [Broken] && cs[1..] == [] + [cs[1]];
    }
  }

  /** After the head the events of a batch are taken in their order, and the periodic
      part has the last word. */
  lemma TurnWithEvents(c: Settings, s: Loop, events: seq<Event>, cs: seq<Choice>)
    requires |cs| == |events| + 2
    ensures var order := seq(|events|, i requires 0 <= i < |events| => Ev(events[i]));
            && |Steps(Poll(events))| == |events| + 2
            && ExecAll(c, s, Steps(Poll(events)), cs)
               == Exec(c, ExecAll(c, Exec(c, s, Top, cs[0]), order, cs[1..|cs| - 1]), Check, cs[|cs| - 1])
  {
    var ds, x := cs[1..|cs| - 1], cs[|cs| - 1];
    EventsInOrder(events);
    HeadFirst(c, s, Poll(events), cs);
    assert cs[1..] == ds + [x];
    ExecAllSnoc(c, Exec(c, s, Top, cs[0]), Events(events), ds, Check, x);
  }

  lemma {:induction false} EventsInOrder(events: seq<Event>)
    ensures Events(events) == seq(|events|, i requires 0 <= i < |events| => Ev(events[i]))
  {
    if events != [] { EventsInOrder(events[..|events| - 1]); }
  }

  /** At the head of a turn of a running loop the shutdown starts iff it was asked for. */
  lemma ShutdownStartsExactly(c: Settings, s: Loop, choice: Choice)
    requires !s.Halted() && s.phase == RUNNING
    ensures var s' := Exec(c, s, Top, choice);
            if s.tcp.state.request then
              && s'.phase == DRAINING && s'.Mgr().draining && s'.tcp.stopAccepting
              && s'.armed == Armable(c.rate) && s'.armedAt == s.Clock()
              && s'.Mgr().sessions == s.Mgr().sessions && s'.Mgr().log == s.Mgr().log
              && s'.tcp.clients == s.tcp.clients && s'.tcp.running
                 == s.tcp.running
            else s' == s
  {
  }

  /** Somebody asks for the shutdown: by HTTP, or by a SHUTDOWN among the requests that
      a readable client is served. */
  ghost predicate Asks(c: Settings, s: Loop, u: Micro) {
    && !s.Halted() && u.Ev?
    && match u.e
       case HttpStop => true
       case TcpReadable(fd, Packet(data, _)) =>
         && fd in s.tcp.clients && data != []
         && HasShutdown(Drive(Stepper(c.services), s.tcp.state, s.tcp.clients[fd] + data).work)
       case _ => false
  }

  ghost predicate EverAsks(c: Settings, s: Loop, us: seq<Micro>, cs: seq<Choice>)
    requires |us| == |cs|
    decreases |us|
  {
    var n := |us|;
    n > 0 && (EverAsks(c, s, us[..n - 1], cs[..n - 1])
              || Asks(c, ExecAll(c, s, us[..n - 1], cs[..n - 1]), us[n - 1]))
  }

  lemma {:induction false} ExpireKeepsFlag(s: Loop, n: nat, firsts: seq<Imsi>)
    ensures Expire(s, n, firsts).tcp.state.request == s.tcp.state.request
  {
    if n > 0 { ExpireKeepsFlag(s, n - 1, firsts); }
  }

  lemma CleanUpKeepsFlag(c: Settings, s: Loop, choice: Choice)
    ensures AtCheck(c, s, choice).tcp.state.request == s.tcp.state.request
  {
  }

  lemma ReadAsks(c: Settings, s: Loop, fd: int, packet: Packet, choice: Choice)
    requires !s.Halted()
    ensures var u := Ev(TcpReadable(fd, packet));
            Exec(c, s, u, choice).tcp.state.request <==> s.tcp.state.request || Asks(c, s, u)
  {
    if fd !in s.tcp.clients {
      StrangerIsIgnored(c, s, fd, packet, choice);
    } else if packet.Packet? && packet.data != [] {
      ClientIsServed(c, s, fd, packet.data, packet.peerClosed, choice);
      ShutdownRaises(c.services, s.tcp.state, s.tcp.clients[fd] + packet.data);
    } else {
      SilentClient(c, s, fd, packet, choice);
    }
  }

  lemma AskStep(c: Settings, s: Loop, u: Micro, choice: Choice)
    ensures Exec(c, s, u, choice).tcp.state.request <==> s.tcp.state.request || Asks(c, s, u)
  {
    if !s.Halted() {
      match u
      case Check => CleanUpKeepsFlag(c, s, choice);
      case Ev(Timer) => ExpireKeepsFlag(ReadTimer(c, s), Due(c, s), choice.firsts);
      case Ev(TcpReadable(fd, packet)) => ReadAsks(c, s, fd, packet, choice);
      case _ =>
    }
  }

  /** In every reachable state the shutdown flag is up iff somebody asked before. */
  lemma {:induction false} FlagIsAsked(
      c: Settings, s: Loop, us: seq<Micro>, cs: seq<Choice>, blacklist: set<Imsi>, w: World)
    requires Reachable(c, s, us, cs, blacklist, w)
    ensures s.tcp.state.request <==> EverAsks(c, Started(blacklist, w), us, cs)
    decreases |us|
  {
    var n := |us|;
    if n > 0 {
      var before := ExecAll(c, Started(blacklist, w), us[..n - 1], cs[..n - 1]);
      FlagIsAsked(c, before, us[..n - 1], cs[..n - 1], blacklist, w);
      AskStep(c, before, us[n - 1], cs[n - 1]);
    }
  }

  /** Of `had` sessions these many expirations removed as many as there were. */
  ghost predicate Expired(s: Loop, s': Loop, n: nat) {
    var had := |s.Mgr().sessions.Keys|; var gone := if n < had then n else had;
    && |s'.Mgr().sessions.Keys| == had - gone && s'.drained == s.drained + gone
    && s'.Mgr().stats.terminated == s.Mgr().stats.terminated + gone
    && |s'.Mgr().log| == |s.Mgr().log| + gone
    && s'.phase == if n > had then STOPPING else DRAINING
  }

  lemma ExpireOnceExactly(s: Loop, s': Loop, n: nat, first: Imsi)
    requires Expired(s, s', n)
    ensures Expired(s, ExpireOnce(s', first), n + 1)
  {
    var m := s'.Mgr();
    ShutdownRemovesOne(m, first);
    if m.sessions.Keys != {} { TerminationMeans(m, First(m.sessions.Keys, first)); }
    if |m.sessions.Keys| == 0 { assert m.sessions.Keys == {}; }
  }

  lemma {:induction false} ExpireExactly(s: Loop, n: nat, firsts: seq<Imsi>)
    requires s.phase == DRAINING
    ensures Expired(s, Expire(s, n, firsts), n)
  {
    if n > 0 {
      ExpireExactly(s, n - 1, firsts);
      ExpireOnceExactly(s, Expire(s, n - 1, firsts), n - 1, HintAt(firsts, n - 1));
    }
  }

  /** A reading of the timer while draining removes one session for each expiration due,
      as long as there are any, each recorded and counted as terminated, and one
      expiration more than there are sessions ends the draining. */
  lemma TimerRemovesExactly(c: Settings, s: Loop, choice: Choice)
    requires !s.Halted() && s.phase == DRAINING && s.armed
    ensures var s' := Exec(c, s, Ev(Timer), choice); var had, due := |s.Mgr().sessions.Keys|, Due(c, s);
            var gone := if due < had then due else had;
            && |s'.Mgr().sessions.Keys| == had - gone && s'.drained == s.drained + gone
            && s'.Mgr().stats.terminated == s.Mgr().stats.terminated + gone
            && |s'.Mgr().log| == |s.Mgr().log| + gone
            && s'.phase == if due > had then STOPPING else DRAINING
  {
    ExpireExactly(ReadTimer(c, s), Due(c, s), choice.firsts);
  }

  /** The periodic part of a turn cleans up iff more than three seconds have passed since
      the last time, and then exactly the sessions younger than the timeout stay. */
  lemma CleansUpExactly(c: Settings, s: Loop, choice: Choice)
    requires !s.Halted()
    ensures var s' := Exec(c, s, Check, choice);
            && s.Clock() <= s'.lastCheck <= s'.Clock()
            && if s'.lastCheck - s.lastCleanup > 3 * SECOND then
                 && s'.lastCleanup == s'.lastCheck
                 && forall k :: k in s.Mgr().sessions ==>
                      (k in s'.Mgr().sessions <==> s'.Clock() - s.Mgr().sessions[k] < c.timeout)
               else s'.lastCleanup == s.lastCleanup && s'.Mgr() == s.Mgr()
  {
    CleanedExactly(c, s, choice);
    CleanLeavesTheYoung(s.Mgr(), choice.order, AtCheck(c, s, choice).Clock(), c.timeout);
  }

  lemma CleanedExactly(c: Settings, s: Loop, choice: Choice)
    ensures var s' := AtCheck(c, s, choice);
            && s.Clock() <= s'.lastCheck <= s'.Clock()
            && if s'.lastCheck - s.lastCleanup > 3 * SECOND then
                 s'.lastCleanup == s'.lastCheck && s'.Mgr() == Clean(s.Mgr(), choice.order, s'.Clock(), c.timeout)
               else s'.lastCleanup == s.lastCleanup && s'.Mgr() == s.Mgr()
  {
  }
}
