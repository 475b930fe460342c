/** The main loop as steps: what each of them does to the whole server. */
module LoopSteps {
  import opened Protocol
  import opened Sessions
  import opened SessionLog
  import opened SessionRuns
  import opened Environment
  import opened TcpFraming
  import opened TcpHandlers
  import opened UdpServers

  datatype Phase = RUNNING | DRAINING | STOPPING | STOPPED

  const CLEANUP_INTERVAL_S: int := 10

  datatype Settings = Settings(services: Services, timeout: int, rate: int)

  /** `lastCheck` is when the loop last asked whether to clean up, `lastRead` when it
      last read the drain timer, `fired` the expirations read so far, `drained` the
      sessions removed for them. */
  datatype Loop = Loop(
    phase: Phase, exited: bool, tcp: Tcp<HState>,
    udpRunning: bool, incoming: seq<Datagram>, sent: seq<Reply>,
    lastCleanup: Instant, lastCheck: Instant,
    armed: bool, armedAt: Instant, lastRead: Instant, fired: nat, drained: nat)
  {
    function Mgr(): Manager { tcp.state.mgr }
    function Clock(): Instant { tcp.state.world.clock }
    function With(m: Manager, w: World): Loop {
      this.(tcp := tcp.(state := tcp.state.(mgr := m, world := w)))
    }
    predicate Halted() { exited || phase == STOPPED }
  }

  /** What epoll may report, what other threads may do, and time passing. */
  datatype Event =
    | Timer
    | UdpReadable(arrived: seq<Datagram>)
    | TcpAcceptable(incoming: Incoming)
    | TcpReadable(fd: int, packet: Packet)
    | HttpStop
    | Pass(d: nat)

  /** The steps of the loop: its head, one event, its periodic part, and an epoll
      error that leaves it. */
  datatype Micro = Top | Ev(e: Event) | Check | Broken

  /** How hash tables happen to be laid out during a step. */
  datatype Choice = Choice(firsts: seq<Imsi>, order: seq<Imsi>)

  // ----- The drain timer -----

  const MILLISECOND: int := 1_000_000

  /** The timer interval, a whole number of milliseconds. */
  function Interval(rate: int): nat
    requires rate > 0
  {
    1000 / rate * MILLISECOND
  }

  /** `timerfd_settime` rejects nanoseconds from a full second on, and a zero
      interval disarms the timer. */
  predicate Armable(rate: int) {
    rate > 0 && 0 < Interval(rate) < SECOND
  }

  /** How often the timer has expired so long after it was armed. */
  function Ticks(rate: int, elapsed: int): nat {
    if Armable(rate) && elapsed >= 0 then elapsed / Interval(rate) else 0
  }

  /** The expirations a read of the timer returns: those since the last read. */
  function Due(c: Settings, s: Loop): nat {
    var n := Ticks(c.rate, s.Clock() - s.armedAt) - s.fired;
    if n > 0 then n else 0
  }

  // ----- The steps -----

  function StartShutdown(c: Settings, s: Loop): Loop {
    var state := s.tcp.state.(mgr := StartDraining(s.Mgr()));
    s.(phase := DRAINING, armed := Armable(c.rate), armedAt := s.Clock(), lastRead := s.Clock(),
       tcp := s.tcp.(stopAccepting := true, state := state))
  }

  function StopServers(s: Loop): Loop {
    s.(phase := STOPPED, udpRunning := false, tcp := StopServer(s.tcp))
  }

  function AtTop(c: Settings, s: Loop): Loop {
    var s' := if s.phase == RUNNING && s.tcp.state.request then StartShutdown(c, s) else s;
    if s'.phase == STOPPING then StopServers(s') else s'
  }

  function HintAt(firsts: seq<Imsi>, i: nat): Imsi {
    if i < |firsts| then firsts[i] else ""
  }

  /** One session goes, or there is none, which ends the draining. */
  ghost function ExpireOnce(s: Loop, first: Imsi): Loop {
    if s.phase != DRAINING then s
    else
      var (m, more) := ShutdownOne(s.Mgr(), first);
      if more then s.With(m, s.tcp.state.world).(drained := s.drained + 1) else s.(phase := STOPPING)
  }

  /** As many expirations of the drain timer, one after another. */
  ghost function Expire(s: Loop, n: nat, firsts: seq<Imsi>): Loop {
    if n == 0 then s else ExpireOnce(Expire(s, n - 1, firsts), HintAt(firsts, n - 1))
  }

  function ReadTimer(c: Settings, s: Loop): Loop {
    s.(fired := s.fired + Due(c, s), lastRead := s.Clock())
  }

  ghost function OnTimer(c: Settings, s: Loop, firsts: seq<Imsi>): Loop {
    if s.phase == DRAINING && s.armed then Expire(ReadTimer(c, s), Due(c, s), firsts) else s
  }

  ghost function OnDatagrams(s: Loop, arrived: seq<Datagram>): Loop {
    if !s.udpRunning then s.(incoming := s.incoming + arrived)
    else
      var b := ProcessEvent(s.Mgr(), s.tcp.state.world, s.incoming + arrived);
      s.With(b.mgr, b.world).(incoming := b.queue, sent := s.sent + b.replies)
  }

  /** An exception that escapes from refusing a connection ends the loop. */
  ghost function OnConnection(s: Loop, incoming: Incoming): Loop {
    var (tcp, fd) := AcceptNewClient(s.tcp, incoming);
    s.(tcp := tcp, exited := s.exited || fd.None?)
  }

  ghost function OnEvent(c: Settings, s: Loop, e: Event, choice: Choice): Loop {
    match e
    case Timer => OnTimer(c, s, choice.firsts)
    case UdpReadable(arrived) => OnDatagrams(s, arrived)
    case TcpAcceptable(incoming) => OnConnection(s, incoming)
    case TcpReadable(fd, packet) => s.(tcp := HandleClientData(Stepper(c.services), s.tcp, fd, packet).0)
    case HttpStop => s.(tcp := s.tcp.(state := s.tcp.state.(request := true)))
    case Pass(d) =>
      s.With(s.Mgr(), s.tcp.state.world.(clock := s.Clock() + d))
  }

  ghost function CleanUp(c: Settings, s: Loop, choice: Choice): Loop {
    var w := Next(s.tcp.state.world).0;
    s.With(Clean(s.Mgr(), choice.order, w.clock, c.timeout), w).(lastCleanup := s.lastCheck)
  }

  ghost function AtCheck(c: Settings, s: Loop, choice: Choice): Loop {
    var w := Next(s.tcp.state.world).0;
    var s' := s.With(s.Mgr(), w).(lastCheck := w.clock);
    if s'.lastCheck - s.lastCleanup > CLEANUP_INTERVAL_S / 3 * SECOND then CleanUp(c, s', choice) else s'
  }

  ghost function Exec(c: Settings, s: Loop, u: Micro, choice: Choice): Loop {
    if s.Halted() then s
    else
      match u
      case Top => AtTop(c, s)
      case Ev(e) => OnEvent(c, s, e, choice)
      case Check => AtCheck(c, s, choice)
      case Broken => s.(exited := true)
  }

  ghost function ExecAll(c: Settings, s: Loop, us: seq<Micro>, cs: seq<Choice>): Loop
    requires |us| == |cs|
    decreases |us|
  {
    var n := |us|;
    if n == 0 then s else Exec(c, ExecAll(c, s, us[..n - 1], cs[..n - 1]), us[n - 1], cs[n - 1])
  }

  lemma ExecAllSnoc(c: Settings, s: Loop, us: seq<Micro>, cs: seq<Choice>, u: Micro, choice: Choice)
    requires |us| == |cs|
    ensures ExecAll(c, s, us + [u], cs + [choice]) == Exec(c, ExecAll(c, s, us, cs), u, choice)
  {
    assert (us + [u])[..|us|] == us && (cs + [choice])[..|cs|] == cs;
  }

  lemma {:induction false} ExecAllAppend(
      c: Settings, s: Loop, us: seq<Micro>, cs: seq<Choice>, vs: seq<Micro>, ds: seq<Choice>)
    requires |us| == |cs| && |vs| == |ds|
    ensures ExecAll(c, s, us + vs, cs + ds) == ExecAll(c, ExecAll(c, s, us, cs), vs, ds)
    decreases |vs|
  {
    var n := |vs|;
    if n == 0 {
      assert us + vs == us && cs + ds == cs;
    } else {
      ExecAllAppend(c, s, us, cs, vs[..n - 1], ds[..n - 1]);
      ExecAllSnoc(c, s, us + vs[..n - 1], cs + ds[..n - 1], vs[n - 1], ds[n - 1]);
      assert us + vs[..n - 1] + [vs[n - 1]] == us + vs;
      assert cs + ds[..n - 1] + [ds[n - 1]] == cs + ds;
    }
  }

  // ----- Turns -----

  /** What one turn of the loop meets: a batch from epoll, an interrupted wait or
      a failed one. */
  datatype Turn = Poll(events: seq<Event>) | Interrupted | Failure

  function Events(events: seq<Event>): seq<Micro> {
    if events == [] then [] else Events(events[..|events| - 1]) + [Ev(events[|events| - 1])]
  }

  /** The steps of one turn after its head. */
  function Body(turn: Turn): seq<Micro> {
    match turn
    case Poll(events) => Events(events) + [Check]
    case Interrupted => []
    case Failure => [Broken]
  }

  function Steps(turn: Turn): seq<Micro> {
    [Top] + Body(turn)
  }

  function AllSteps(turns: seq<Turn>): seq<Micro> {
    if turns == [] then [] else AllSteps(turns[..|turns| - 1]) + Steps(turns[|turns| - 1])
  }

  /** A server just started: nobody connected, no sessions, nothing asked. */
  function Started(blacklist: set<Imsi>, w: World): Loop {
    Loop(RUNNING, false, Tcp(true, false, map[], HState(Initial(blacklist), false, w), []),
         true, [], [], w.clock, w.clock, false, w.clock, w.clock, 0, 0)
  }
}
