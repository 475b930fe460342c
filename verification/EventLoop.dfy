/** The event loop of the server. */
module EventLoops {
  import opened Sessions
  import opened SessionRuns
  import opened SessionManagers
  import opened Environment
  import opened TcpFraming
  import opened TcpHandlers
  import opened TcpServers
  import opened UdpServers
  import opened LoopSteps
  import SessionLog
  import ShutdownSafety

  /** A loop that has been left does nothing more. */
  lemma {:induction false} HaltedStays(c: Settings, s: Loop, us: seq<Micro>, cs: seq<Choice>)
    requires |us| == |cs| && s.Halted()
    ensures ExecAll(c, s, us, cs) == s
    decreases |us|
  {
    if |us| > 0 { HaltedStays(c, s, us[..|us| - 1], cs[..|us| - 1]); }
  }

  lemma TopThenBody(c: Settings, s: Loop, topped: Loop, x: Choice, turn: Turn, ds: seq<Choice>)
    requires topped == Exec(c, s, Top, x) && |ds| == |Body(turn)|
    ensures ExecAll(c, s, Steps(turn), [x] + ds) == ExecAll(c, topped, Body(turn), ds)
  {
    assert [] + [Top] == [Top] && [] + [x] == [x];
    ExecAllSnoc(c, s, [], [], Top, x);
    ExecAllAppend(c, s, [Top], [x], Body(turn), ds);
  }

  class EventLoop {
    const settings: Settings
    const manager: SessionManager
    const surroundings: Surroundings
    const shutdownRequest: Flag
    const udp: UdpServer
    const tcp: TcpServer

    var phase: Phase
    var exited: bool
    var lastCleanup: Instant
    ghost var lastCheck: Instant
    var armed: bool
    var armedAt: Instant  // the drain timer: when it was armed
    var fired: nat        // and how many of its expirations have been read
    ghost var lastRead: Instant
    ghost var drained: nat

    /** All parts share one manager, one environment and one flag. */
    ghost predicate Wired() {
      && udp.manager == manager && udp.surroundings == surroundings
      && tcp.surroundings == surroundings && tcp.handler.manager == manager
      && tcp.handler.shutdownRequest == shutdownRequest && tcp.handler.services == settings.services
      && manager.timeout == settings.timeout && manager.shutdownRate == settings.rate
    }

    ghost function Snapshot(): Loop
      reads this, manager, surroundings, shutdownRequest, udp, tcp, tcp.handler.manager,
            tcp.handler.shutdownRequest, tcp.surroundings
    {
      Loop(phase, exited, tcp.Snapshot(), udp.running, udp.incoming, udp.sent, lastCleanup, lastCheck,
           armed, armedAt, lastRead, fired, drained)
    }

    constructor (settings: Settings, blacklist: set<Imsi>, clock: Instant, tape: seq<Tick>)
      ensures Wired() && this.settings == settings
      ensures Snapshot() == Started(blacklist, World(clock, tape))
      ensures fresh({manager, surroundings, shutdownRequest, udp, tcp, tcp.handler})
    {
      this.settings := settings;
      var m := new SessionManager(blacklist, settings.timeout, settings.rate);
      var w := new Surroundings(clock, tape);
      var f := new Flag();
      var h := new TcpHandler(settings.services, m, f);
      manager, surroundings, shutdownRequest := m, w, f;
      udp := new UdpServer(m, w);
      tcp := new TcpServer(h, w);
      phase, exited, lastCleanup, lastCheck, armed := RUNNING, false, clock, clock, false;
      armedAt, lastRead, fired, drained := clock, clock, 0, 0;
    }

    method BeginShutdown()
      requires Wired()
      modifies this, manager, tcp
      ensures Snapshot() == StartShutdown(settings, old(Snapshot()))
    {
      manager.StartDraining();
      tcp.StopAccepting();
      armed, armedAt := Armable(manager.shutdownRate), surroundings.clock;
      lastRead := surroundings.clock;
      phase := DRAINING;
    }

    /** The head of a turn: a shutdown request starts the draining, and the end of
        the draining stops the servers. */
    method HandleTop()
      requires Wired() && !Snapshot().Halted()
      modifies this, manager, tcp, udp
      ensures Snapshot() == Exec(settings, old(Snapshot()), Top, Choice([], []))
    {
      if phase == RUNNING && shutdownRequest.raised {
        BeginShutdown();
      }
      if phase == STOPPING {
        udp.Stop();
        tcp.Stop();
        phase := STOPPED;
      }
    }

    /** One expiration of the drain timer. */
    method HandleExpiration() returns (ghost first: Imsi)
      requires Wired() && phase == DRAINING
      modifies this, manager
      ensures Snapshot() == ExpireOnce(old(Snapshot()), first)
    {
      var more;
      more, first := manager.ShutdownSession();
      if more {
        drained := drained + 1;
      } else {
        phase := STOPPING;
      }
    }

    /** The expirations since the last read. */
    method ReadExpirations() returns (n: nat)
      requires Wired()
      modifies this
      ensures n == Due(settings, old(Snapshot())) && Snapshot() == ReadTimer(settings, old(Snapshot()))
    {
      var total := Ticks(settings.rate, surroundings.clock - armedAt);
      n := if total > fired then total - fired else 0;
      fired := fired + n;
      lastRead := surroundings.clock;
    }

    /** Removes as many sessions as the timer has expired times. */
    method HandleTimer(expirations: nat) returns (ghost firsts: seq<Imsi>)
      requires Wired() && phase == DRAINING
      modifies this, manager
      ensures Snapshot() == Expire(old(Snapshot()), expirations, firsts)
    {
      firsts := [];
      ghost var begin := Snapshot();
      ghost var at := begin;
      var i := 0;
      while i < expirations && phase == DRAINING
        invariant 0 <= i <= expirations && |firsts| == i
        invariant at == Snapshot() && at == Expire(begin, i, firsts)
      {
        ghost var first := HandleExpiration();
        at := ExpireHints(begin, i, firsts, at, first);
        firsts := firsts + [first];
        i := i + 1;
      }
      ExpireRest(begin, i, expirations, firsts);
    }

    /** A readable timer while draining. */
    method HandleDrain() returns (ghost firsts: seq<Imsi>)
      requires Wired() && phase == DRAINING && armed
      modifies this, manager
      ensures Snapshot() == OnTimer(settings, old(Snapshot()), firsts) && phase != STOPPED
    {
      var expirations := ReadExpirations();
      firsts := HandleTimer(expirations);
      ExpireNeverStops(ReadTimer(settings, old(Snapshot())), expirations, firsts);
    }

    method HandleDatagrams(arrived: seq<Datagram>)
      requires Wired()
      modifies manager, surroundings, udp
      ensures Snapshot() == OnDatagrams(old(Snapshot()), arrived)
    {
      udp.incoming := udp.incoming + arrived;
      udp.ProcessPending();
    }

    method HandleConnection(incoming: Incoming)
      requires Wired()
      modifies this, tcp
      ensures Snapshot() == OnConnection(old(Snapshot()), incoming) && phase == old(phase)
    {
      var fd := tcp.AcceptNewClient(incoming);
      if fd.None? { exited := true; }
    }

    method HandleEvent(e: Event) returns (ghost choice: Choice)
      requires Wired() && !Snapshot().Halted()
      modifies this, manager, surroundings, shutdownRequest, udp, tcp
      ensures Snapshot() == Exec(settings, old(Snapshot()), Ev(e), choice) && phase != STOPPED
    {
      choice := Choice([], []);
      match e
      case Timer =>
        if phase == DRAINING && armed {
          ghost var firsts := HandleDrain();
          choice := Choice(firsts, []);
        }
      case UdpReadable(arrived) =>
        HandleDatagrams(arrived);
      case TcpAcceptable(incoming) =>
        HandleConnection(incoming);
      case TcpReadable(fd, packet) =>
        var open := tcp.HandleClientData(fd, packet);
      case HttpStop =>
        shutdownRequest.Raise();
      case Pass(d) =>
        surroundings.clock := surroundings.clock + d;
    }

    /** The periodic part of a turn. */
    method HandlePeriodic() returns (ghost choice: Choice)
      requires Wired() && !Snapshot().Halted()
      modifies this, manager, surroundings
      ensures Snapshot() == Exec(settings, old(Snapshot()), Check, choice)
    {
      choice := Choice([], []);
      var t := surroundings.Interact();
      var now := surroundings.clock;
      lastCheck := now;
      if now - lastCleanup > CLEANUP_INTERVAL_S / 3 * SECOND {
        t := surroundings.Interact();
        ghost var order := manager.CleanTimeoutSessions(surroundings.clock);
        choice := Choice([], order);
        lastCleanup := now;
      }
    }

    /** A batch of events, in the order epoll reported them. */
    method HandleEvents(events: seq<Event>) returns (ghost cs: seq<Choice>)
      requires Wired() && !Snapshot().Halted()
      modifies this, manager, surroundings, shutdownRequest, udp, tcp
      ensures |cs| == |Events(events)| && phase != STOPPED
      ensures Snapshot() == ExecAll(settings, old(Snapshot()), Events(events), cs)
    {
      cs := [];
      var i := 0;
      while i < |events| && !exited
        invariant 0 <= i <= |events| && phase != STOPPED
        invariant |cs| == |Events(events[..i])|
        invariant Snapshot() == ExecAll(settings, old(Snapshot()), Events(events[..i]), cs)
      {
        assert events[..i + 1][..i] == events[..i];
        ghost var choice := HandleEvent(events[i]);
        ExecAllSnoc(settings, old(Snapshot()), Events(events[..i]), cs, Ev(events[i]), choice);
        cs := cs + [choice];
        i := i + 1;
      }
      if i < |events| {
        EventsPrefix(events, i);
        cs := HaltedRest(settings, old(Snapshot()), Events(events[..i]), Events(events), cs);
      } else {
        assert events[..i] == events;
      }
    }

    /** One turn after its head: waiting for events and what follows. */
    method HandleBody(turn: Turn) returns (ghost cs: seq<Choice>)
      requires Wired() && !Snapshot().Halted()
      modifies this, manager, surroundings, shutdownRequest, udp, tcp
      ensures |cs| == |Body(turn)|
      ensures Snapshot() == ExecAll(settings, old(Snapshot()), Body(turn), cs)
    {
      match turn
      case Poll(events) =>
        cs := HandleEvents(events);
        ghost var choice := Choice([], []);
        if !exited { choice := HandlePeriodic(); }
        ExecAllSnoc(settings, old(Snapshot()), Events(events), cs, Check, choice);
        cs := cs + [choice];
      case Interrupted =>
        cs := [];
      case Failure =>
        exited := true;
        cs := [Choice([], [])];
    }

    /** One turn of the loop. */
    method HandleTurn(turn: Turn) returns (ghost cs: seq<Choice>)
      requires Wired() && !Snapshot().Halted()
      modifies this, manager, surroundings, shutdownRequest, udp, tcp
      ensures |cs| == |Steps(turn)|
      ensures Snapshot() == ExecAll(settings, old(Snapshot()), Steps(turn), cs)
    {
      ghost var x := Choice([], []);
      HandleTop();
      ghost var topped := Snapshot();
      ghost var ds: seq<Choice>;
      if phase != STOPPED {
        ds := HandleBody(turn);
      } else {
        ds := seq(|Body(turn)|, _ => x);
        HaltedStays(settings, topped, Body(turn), ds);
      }
      TopThenBody(settings, old(Snapshot()), topped, x, turn, ds);
      cs := [x] + ds;
    }

    /** Turns until the loop has stopped or broken off, or no turn is left. */
    method RunEventLoop(turns: seq<Turn>) returns (ghost cs: seq<Choice>)
      requires Wired()
      modifies this, manager, surroundings, shutdownRequest, udp, tcp
      ensures |cs| == |AllSteps(turns)|
      ensures Snapshot() == ExecAll(settings, old(Snapshot()), AllSteps(turns), cs)
    {
      ghost var begin := Snapshot();
      cs := [];
      var i := 0;
      while i < |turns| && phase != STOPPED && !exited
        invariant 0 <= i <= |turns| && |cs| == |AllSteps(turns[..i])|
        invariant Snapshot() == ExecAll(settings, begin, AllSteps(turns[..i]), cs)
      {
        assert turns[..i + 1][..i] == turns[..i];
        ghost var ds := HandleTurn(turns[i]);
        ExecAllAppend(settings, begin, AllSteps(turns[..i]), cs, Steps(turns[i]), ds);
        cs := cs + ds;
        i := i + 1;
      }
      if i < |turns| {
        AllStepsPrefix(turns, i);
        cs := HaltedRest(settings, begin, AllSteps(turns[..i]), AllSteps(turns), cs);
      } else {
        assert turns[..i] == turns;
      }
    }
  }

  /** A server from its start over any number of turns: if it has stopped, no
      session is left and its CDR log is balanced for every subscriber. */
  method RunServer(settings: Settings, blacklist: set<Imsi>, clock: Instant, tape: seq<Tick>, turns: seq<Turn>)
    returns (loop: EventLoop)
    requires settings.timeout > 0
    ensures fresh(loop) && loop.Wired()
    ensures loop.phase == STOPPED ==>
              && loop.manager.sessions.Keys == {} && loop.tcp.clients == map[] && !loop.udp.running
              && forall imsi :: SessionLog.CountFor(loop.manager.cdr, imsi, CREATED)
                                == SessionLog.CountFor(loop.manager.cdr, imsi, DELETED)
  {
    loop := new EventLoop(settings, blacklist, clock, tape);
    ghost var cs := loop.RunEventLoop(turns);
    ghost var w := World(clock, tape);
    if loop.phase == STOPPED {
      forall imsi
        ensures SessionLog.CountFor(loop.manager.cdr, imsi, CREATED)
                == SessionLog.CountFor(loop.manager.cdr, imsi, DELETED)
      {
        ShutdownSafety.StoppedIsClean(settings, loop.Snapshot(), AllSteps(turns), cs, blacklist, w, imsi);
      }
      ShutdownSafety.StoppedIsClean(settings, loop.Snapshot(), AllSteps(turns), cs, blacklist, w, "");
    }
  }

  /** The steps never taken, once the loop has been left, change nothing. */
  lemma HaltedRest(c: Settings, s0: Loop, done: seq<Micro>, all: seq<Micro>, cs: seq<Choice>) returns (ds: seq<Choice>)
    requires done <= all && |cs| == |done| && ExecAll(c, s0, done, cs).Halted()
    ensures |ds| == |all| && ExecAll(c, s0, all, ds) == ExecAll(c, s0, done, cs)
  {
    var rest := seq(|all| - |done|, _ => Choice([], []));
    HaltedStays(c, ExecAll(c, s0, done, cs), all[|done|..], rest);
    ExecAllAppend(c, s0, done, cs, all[|done|..], rest);
    assert all == done + all[|done|..];
    ds := cs + rest;
  }

  lemma {:induction false} EventsPrefix(events: seq<Event>, i: nat)
    requires i <= |events|
    ensures Events(events[..i]) <= Events(events)
  {
    if i == |events| {
      assert events[..i] == events;
    } else {
      var init := events[..|events| - 1];
      EventsPrefix(init, i);
      assert init[..i] == events[..i];
    }
  }

  lemma {:induction false} AllStepsPrefix(turns: seq<Turn>, i: nat)
    requires i <= |turns|
    ensures AllSteps(turns[..i]) <= AllSteps(turns)
  {
    if i == |turns| {
      assert turns[..i] == turns;
    } else {
      var init := turns[..|turns| - 1];
      AllStepsPrefix(init, i);
      assert init[..i] == turns[..i];
    }
  }

  lemma {:induction false} ExpireNeverStops(s: Loop, n: nat, firsts: seq<Imsi>)
    requires s.phase != STOPPED
    ensures Expire(s, n, firsts).phase != STOPPED
  {
    if n > 0 { ExpireNeverStops(s, n - 1, firsts); }
  }

  /** Only the first `n` hints matter to `n` expirations. */
  lemma {:induction false} ExpireIgnores(s: Loop, n: nat, firsts: seq<Imsi>, more: seq<Imsi>)
    requires n <= |firsts|
    ensures Expire(s, n, firsts + more) == Expire(s, n, firsts)
  {
    if n > 0 { ExpireIgnores(s, n - 1, firsts, more); }
  }

  lemma ExpireHints(begin: Loop, n: nat, firsts: seq<Imsi>, s: Loop, first: Imsi) returns (s': Loop)
    requires n == |firsts| && s == Expire(begin, n, firsts)
    ensures s' == ExpireOnce(s, first) && s' == Expire(begin, n + 1, firsts + [first])
  {
    ExpireIgnores(begin, n, firsts, [first]);
    s' := ExpireOnce(s, first);
  }

  lemma {:induction false} ExpireRest(s: Loop, n: nat, total: nat, firsts: seq<Imsi>)
    requires n <= total && (n == total || Expire(s, n, firsts).phase != DRAINING)
    ensures Expire(s, total, firsts) == Expire(s, n, firsts)
    decreases total
  {
    if n < total { ExpireRest(s, n, total - 1, firsts); }
  }
}
