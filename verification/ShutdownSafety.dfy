/** What holds in every reachable state of the main loop, and how it ends. */
module ShutdownSafety {
  import opened Protocol
  import opened Sessions
  import opened SessionLog
  import opened SessionRuns
  import opened Environment
  import opened TcpFraming
  import opened TcpHandlers
  import opened UdpServers
  import opened LoopSteps

  function Rank(p: Phase): nat {
    match p
    case RUNNING => 0
    case DRAINING => 1
    case STOPPING => 2
    case STOPPED => 3
  }

  /** What any step leaves as it was or moves one way only. */
  ghost predicate Advances(s: Loop, s': Loop) {
    && Rank(s.phase) <= Rank(s'.phase)
    && s.Clock() <= s'.Clock()
    && Evolves(s.Mgr(), s'.Mgr(), s.Clock(), s'.Clock())
    && (s.tcp.stopAccepting ==> s'.tcp.stopAccepting && s'.tcp.clients.Keys <= s.tcp.clients.Keys)
    && (s.exited ==> s'.exited)
  }

  lemma AdvancesTrans(a: Loop, b: Loop, c: Loop)
    requires Advances(a, b) && Advances(b, c)
    ensures Advances(a, c)
  {
    EvolvesTrans(a.Mgr(), b.Mgr(), c.Mgr(), a.Clock(), b.Clock(), c.Clock());
  }

  /** The loop's own variables, which events leave alone, except that draining an
      empty table ends DRAINING. */
  ghost predicate SameFrame(s: Loop, s': Loop) {
    && s'.tcp.running == s.tcp.running && s'.tcp.stopAccepting == s.tcp.stopAccepting
    && s'.udpRunning == s.udpRunning
    && s'.armed == s.armed && s'.armedAt == s.armedAt
    && s'.lastCleanup == s.lastCleanup && s'.lastCheck == s.lastCheck
    && (s'.phase == s.phase || (s.phase == DRAINING && s'.phase == STOPPING && s'.Mgr().sessions.Keys == {}))
  }

  lemma ExpireOnceAdvances(s: Loop, first: Imsi)
    ensures Advances(s, ExpireOnce(s, first)) && SameFrame(s, ExpireOnce(s, first))
  {
    if s.phase == DRAINING && s.Mgr().sessions.Keys != {} {
      ShutdownEvolves(s.Mgr(), first, s.Clock(), s.Clock());
    } else {
      EvolvesStay(s.Mgr(), s.Clock(), s.Clock());
    }
  }

  lemma {:induction false} ExpireAdvances(s: Loop, n: nat, firsts: seq<Imsi>)
    ensures Advances(s, Expire(s, n, firsts)) && SameFrame(s, Expire(s, n, firsts))
  {
    if n == 0 {
      EvolvesStay(s.Mgr(), s.Clock(), s.Clock());
    } else {
      ExpireAdvances(s, n - 1, firsts);
      ExpireOnceAdvances(Expire(s, n - 1, firsts), HintAt(firsts, n - 1));
      AdvancesTrans(s, Expire(s, n - 1, firsts), Expire(s, n, firsts));
    }
  }

  lemma TimerAdvances(c: Settings, s: Loop, firsts: seq<Imsi>)
    ensures Advances(s, OnTimer(c, s, firsts)) && SameFrame(s, OnTimer(c, s, firsts))
    ensures OnTimer(c, s, firsts).phase == s.phase || s.armed
  {
    if s.phase == DRAINING && s.armed {
      ExpireAdvances(ReadTimer(c, s), Due(c, s), firsts);
    } else {
      EvolvesStay(s.Mgr(), s.Clock(), s.Clock());
    }
  }

  /** Outside the timer an event leaves its variables and the phase alone. */
  ghost predicate SameTimer(s: Loop, s': Loop) {
    && s'.phase == s.phase && s'.armed == s.armed && s'.armedAt == s.armedAt
    && s'.lastRead == s.lastRead && s'.fired == s.fired && s'.drained == s.drained
  }

  ghost predicate Quietly(s: Loop, s': Loop) {
    Advances(s, s') && SameFrame(s, s') && SameTimer(s, s')
  }

  lemma DataAdvances(c: Settings, s: Loop, fd: int, packet: Packet)
    ensures Quietly(s, s.(tcp := HandleClientData(Stepper(c.services), s.tcp, fd, packet).0))
  {
    EvolvesStay(s.Mgr(), s.Clock(), s.Clock());
    if fd in s.tcp.clients && packet.Packet? {
      DriveEvolves(c.services, s.tcp.state, s.tcp.clients[fd] + packet.data);
    }
  }

  lemma DatagramsAdvance(s: Loop, arrived: seq<Datagram>)
    ensures Quietly(s, OnDatagrams(s, arrived))
  {
    BatchEvolves(s.Mgr(), s.tcp.state.world, s.incoming + arrived);
    EvolvesStay(s.Mgr(), s.Clock(), s.Clock());
  }

  lemma ConnectionAdvances(s: Loop, incoming: Incoming)
    ensures Quietly(s, OnConnection(s, incoming))
  {
    EvolvesStay(s.Mgr(), s.Clock(), s.Clock());
  }

  lemma PassAdvances(c: Settings, s: Loop, d: nat, choice: Choice)
    ensures Quietly(s, OnEvent(c, s, Pass(d), choice))
  {
    EvolvesStay(s.Mgr(), s.Clock(), s.Clock() + d);
  }

  lemma RequestAdvances(c: Settings, s: Loop, choice: Choice)
    ensures Quietly(s, OnEvent(c, s, HttpStop, choice))
  {
    EvolvesStay(s.Mgr(), s.Clock(), s.Clock());
  }

  lemma EventQuietly(c: Settings, s: Loop, e: Event, choice: Choice)
    requires !e.Timer?
    ensures Quietly(s, OnEvent(c, s, e, choice))
  {
    match e
    case UdpReadable(arrived) => DatagramsAdvance(s, arrived);
    case TcpAcceptable(incoming) => ConnectionAdvances(s, incoming);
    case TcpReadable(fd, packet) => DataAdvances(c, s, fd, packet);
    case HttpStop => RequestAdvances(c, s, choice);
    case Pass(d) => PassAdvances(c, s, d, choice);
  }

  lemma EventAdvances(c: Settings, s: Loop, e: Event, choice: Choice)
    ensures Advances(s, OnEvent(c, s, e, choice)) && SameFrame(s, OnEvent(c, s, e, choice))
    ensures OnEvent(c, s, e, choice).phase == s.phase || s.armed
  {
    if e.Timer? { TimerAdvances(c, s, choice.firsts); } else { EventQuietly(c, s, e, choice); }
  }

  lemma StartAdvances(c: Settings, s: Loop)
    requires s.phase == RUNNING
    ensures Advances(s, StartShutdown(c, s))
  {
    OpEvolves(s.Mgr(), DrainOp, s.Clock(), s.Clock());
  }

  lemma TopAdvances(c: Settings, s: Loop)
    ensures Advances(s, AtTop(c, s))
  {
    if s.phase == RUNNING && s.tcp.state.request {
      StartAdvances(c, s);
    } else {
      EvolvesStay(s.Mgr(), s.Clock(), s.Clock());
    }
  }

  /** What the periodic part does: nothing but look at the clock, or a clean-up. */
  ghost predicate Checked(c: Settings, s: Loop, choice: Choice, s': Loop) {
    && SameTimer(s, s') && s'.exited == s.exited && s'.udpRunning == s.udpRunning
    && s'.tcp == s.tcp.(state := s'.tcp.state)
    && s.Clock() <= s'.lastCheck <= s'.Clock()
    && (|| (s'.Mgr() == s.Mgr() && s'.lastCleanup == s.lastCleanup && s'.lastCheck - s.lastCleanup <= 3 * SECOND)
        || (s'.lastCleanup == s'.lastCheck && s'.Mgr() == Clean(s.Mgr(), choice.order, s'.Clock(), c.timeout)))
  }

  lemma CleanUpMeans(c: Settings, s: Loop, choice: Choice)
    requires s.lastCheck == s.Clock()
    ensures Checked(c, s, choice, CleanUp(c, s, choice))
  {
  }

  lemma CheckMeans(c: Settings, s: Loop, choice: Choice)
    ensures Checked(c, s, choice, AtCheck(c, s, choice))
  {
    var w := Next(s.tcp.state.world).0;
    CleanUpMeans(c, s.With(s.Mgr(), w).(lastCheck := w.clock), choice);
  }

  lemma CheckAdvances(c: Settings, s: Loop, choice: Choice, s': Loop)
    requires Checked(c, s, choice, s')
    ensures Advances(s, s')
  {
    EvolvesStay(s.Mgr(), s.Clock(), s'.Clock());
    CleanEvolves(s.Mgr(), choice.order, s'.Clock(), c.timeout, s.Clock(), s'.Clock());
  }

  lemma StepAdvances(c: Settings, s: Loop, u: Micro, choice: Choice)
    ensures Advances(s, Exec(c, s, u, choice))
  {
    match u
    case Top => TopAdvances(c, s); EvolvesStay(s.Mgr(), s.Clock(), s.Clock());
    case Ev(e) => EventAdvances(c, s, e, choice); EvolvesStay(s.Mgr(), s.Clock(), s.Clock());
    case Check =>
      CheckMeans(c, s, choice);
      CheckAdvances(c, s, choice, AtCheck(c, s, choice));
      EvolvesStay(s.Mgr(), s.Clock(), s.Clock());
    case Broken => EvolvesStay(s.Mgr(), s.Clock(), s.Clock());
  }

  /** Along any run the phase never goes back, the clock never runs back, nothing
      is added once draining, and no client once accepting has stopped. */
  lemma {:induction false} RunAdvances(c: Settings, s: Loop, us: seq<Micro>, cs: seq<Choice>)
    requires |us| == |cs|
    ensures Advances(s, ExecAll(c, s, us, cs))
    decreases |us|
  {
    var n := |us|;
    if n == 0 {
      EvolvesStay(s.Mgr(), s.Clock(), s.Clock());
    } else {
      var before := ExecAll(c, s, us[..n - 1], cs[..n - 1]);
      RunAdvances(c, s, us[..n - 1], cs[..n - 1]);
      StepAdvances(c, before, us[n - 1], cs[n - 1]);
      AdvancesTrans(s, before, ExecAll(c, s, us, cs));
    }
  }

  // ----- The invariant -----

  /** Draining goes with the phase, and the last phases with an empty table. */
  ghost predicate PhaseInv(c: Settings, s: Loop) {
    && (s.phase != RUNNING ==> s.Mgr().draining && s.armed == Armable(c.rate))
    && (s.phase != RUNNING <==> s.tcp.stopAccepting)
    && (s.phase == STOPPING || s.phase == STOPPED ==> s.Mgr().sessions.Keys == {} && Armable(c.rate))
    && (if s.phase == STOPPED then !s.udpRunning && !s.tcp.running && s.tcp.clients == map[]
        else s.udpRunning && s.tcp.running)
  }

  /** At the last clean-up no session was older than the timeout, that clean-up is
      no longer ago than the interval as of the last check, and no session is from
      the future. */
  ghost predicate AgeInv(c: Settings, s: Loop) {
    && s.lastCleanup <= s.lastCheck <= s.Clock()
    && s.lastCheck - s.lastCleanup <= 3 * SECOND
    && Young(s.Mgr(), s.lastCleanup, c.timeout) && Past(s.Mgr(), s.Clock())
  }

  /** What has been read of the timer are its expirations up to the last read, and at
      most that many sessions have been drained. */
  ghost predicate TimerInv(c: Settings, s: Loop) {
    && s.armedAt <= s.lastRead <= s.Clock()
    && s.fired == (if s.phase == RUNNING then 0 else Ticks(c.rate, s.lastRead - s.armedAt))
    && s.drained <= s.fired
  }

  lemma EventKeepsPhaseInv(c: Settings, s: Loop, e: Event, choice: Choice)
    requires PhaseInv(c, s) && s.phase != STOPPED
    ensures PhaseInv(c, OnEvent(c, s, e, choice))
  {
    EventAdvances(c, s, e, choice);
  }

  lemma StepKeepsPhaseInv(c: Settings, s: Loop, u: Micro, choice: Choice)
    requires PhaseInv(c, s)
    ensures PhaseInv(c, Exec(c, s, u, choice))
  {
    if !s.Halted() {
      match u
      case Ev(e) => EventKeepsPhaseInv(c, s, e, choice);
      case Check =>
        CheckMeans(c, s, choice);
        CheckAdvances(c, s, choice, AtCheck(c, s, choice));
      case _ =>
    }
  }

  lemma CheckKeepsAgeInv(c: Settings, s: Loop, choice: Choice, s': Loop)
    requires AgeInv(c, s) && c.timeout > 0 && Checked(c, s, choice, s')
    ensures AgeInv(c, s')
  {
    CleanIsYoung(s.Mgr(), choice.order, s'.Clock(), s'.lastCheck, c.timeout);
  }

  lemma EventKeepsAgeInv(c: Settings, s: Loop, e: Event, choice: Choice)
    requires AgeInv(c, s) && c.timeout > 0
    ensures AgeInv(c, OnEvent(c, s, e, choice))
  {
    var s' := OnEvent(c, s, e, choice);
    EventAdvances(c, s, e, choice);
    AgesEvolve(s.Mgr(), s'.Mgr(), s.Clock(), s'.Clock(), s.lastCleanup, c.timeout);
  }

  lemma StepKeepsAgeInv(c: Settings, s: Loop, u: Micro, choice: Choice)
    requires AgeInv(c, s) && c.timeout > 0
    ensures AgeInv(c, Exec(c, s, u, choice))
  {
    if !s.Halted() {
      match u
      case Ev(e) => EventKeepsAgeInv(c, s, e, choice);
      case Check =>
        CheckMeans(c, s, choice);
        CheckKeepsAgeInv(c, s, choice, AtCheck(c, s, choice));
      case Top =>
        TopAdvances(c, s);
        AgesEvolve(s.Mgr(), AtTop(c, s).Mgr(), s.Clock(), s.Clock(), s.lastCleanup, c.timeout);
      case Broken =>
    }
  }

  lemma ExpireOnceDrains(s: Loop, first: Imsi)
    ensures var s' := ExpireOnce(s, first);
            && s'.drained <= s.drained + 1 && (s'.phase == RUNNING <==> s.phase == RUNNING)
            && s'.armedAt == s.armedAt && s'.lastRead == s.lastRead && s'.fired == s.fired
            && s'.Clock() == s.Clock() && s'.exited == s.exited
  {
  }

  lemma {:induction false} ExpireDrains(s: Loop, n: nat, firsts: seq<Imsi>)
    ensures var s' := Expire(s, n, firsts);
            && s'.drained <= s.drained + n && (s'.phase == RUNNING <==> s.phase == RUNNING)
            && s'.armedAt == s.armedAt && s'.lastRead == s.lastRead && s'.fired == s.fired
            && s'.Clock() == s.Clock() && s'.exited == s.exited
  {
    if n > 0 {
      ExpireDrains(s, n - 1, firsts);
      ExpireOnceDrains(Expire(s, n - 1, firsts), HintAt(firsts, n - 1));
    }
  }

  lemma TicksGrow(rate: int, a: int, b: int)
    requires a <= b
    ensures Ticks(rate, a) <= Ticks(rate, b)
  {
    if Armable(rate) && a >= 0 {
      QuotientBounds(a, Interval(rate));
      QuotientBounds(b, Interval(rate));
      if a / Interval(rate) > b / Interval(rate) {
        MulMono(Interval(rate), b / Interval(rate) + 1, a / Interval(rate));
      }
    }
  }

  lemma ReadIsUpToDate(c: Settings, s: Loop)
    requires TimerInv(c, s) && s.phase != RUNNING
    ensures s.fired + Due(c, s) == Ticks(c.rate, s.Clock() - s.armedAt)
  {
    TicksGrow(c.rate, s.lastRead - s.armedAt, s.Clock() - s.armedAt);
  }

  lemma TimerKeepsTimerInv(c: Settings, s: Loop, firsts: seq<Imsi>)
    requires TimerInv(c, s)
    ensures TimerInv(c, OnTimer(c, s, firsts))
  {
    if s.phase == DRAINING && s.armed {
      ExpireDrains(ReadTimer(c, s), Due(c, s), firsts);
      ReadIsUpToDate(c, s);
    }
  }

  lemma StepKeepsTimerInv(c: Settings, s: Loop, u: Micro, choice: Choice)
    requires TimerInv(c, s)
    ensures TimerInv(c, Exec(c, s, u, choice))
  {
    if !s.Halted() {
      match u
      case Ev(e) => if e.Timer? { TimerKeepsTimerInv(c, s, choice.firsts); } else { EventQuietly(c, s, e, choice); }
      case Check => CheckMeans(c, s, choice);
      case Top => QuotientBounds(0, if Armable(c.rate) then Interval(c.rate) else 1);
      case Broken =>
    }
  }

  /** The states a started server can come to. */
  ghost predicate Reachable(c: Settings, s: Loop, us: seq<Micro>, cs: seq<Choice>, blacklist: set<Imsi>, w: World) {
    |us| == |cs| && s == ExecAll(c, Started(blacklist, w), us, cs)
  }

  lemma ReachableMore(
      c: Settings, s: Loop, us: seq<Micro>, cs: seq<Choice>, blacklist: set<Imsi>, w: World,
      vs: seq<Micro>, ds: seq<Choice>)
    requires Reachable(c, s, us, cs, blacklist, w) && |vs| == |ds|
    ensures Reachable(c, ExecAll(c, s, vs, ds), us + vs, cs + ds, blacklist, w)
  {
    ExecAllAppend(c, Started(blacklist, w), us, cs, vs, ds);
  }

  lemma {:induction false} ReachableInv(
      c: Settings, s: Loop, us: seq<Micro>, cs: seq<Choice>, blacklist: set<Imsi>, w: World)
    requires Reachable(c, s, us, cs, blacklist, w) && c.timeout > 0
    ensures PhaseInv(c, s) && AgeInv(c, s) && TimerInv(c, s) && Inv(s.Mgr())
    decreases |us|
  {
    var n := |us|;
    if n == 0 {
      InitialInv(blacklist);
    } else {
      var before := ExecAll(c, Started(blacklist, w), us[..n - 1], cs[..n - 1]);
      ReachableInv(c, before, us[..n - 1], cs[..n - 1], blacklist, w);
      StepKeepsPhaseInv(c, before, us[n - 1], cs[n - 1]);
      StepKeepsAgeInv(c, before, us[n - 1], cs[n - 1]);
      StepKeepsTimerInv(c, before, us[n - 1], cs[n - 1]);
      StepAdvances(c, before, us[n - 1], cs[n - 1]);
    }
  }

  // ----- The theorems -----

  /** Every run that reaches STOPPED has no session left, no client, no running
      server, and in its whole CDR log each IMSI was deleted as often as created. */
  lemma StoppedIsClean(
      c: Settings, s: Loop, us: seq<Micro>, cs: seq<Choice>, blacklist: set<Imsi>, w: World, imsi: Imsi)
    requires Reachable(c, s, us, cs, blacklist, w) && c.timeout > 0 && s.phase == STOPPED
    ensures s.Mgr().sessions.Keys == {} && s.tcp.clients == map[] && !s.udpRunning && !s.tcp.running
    ensures CountFor(s.Mgr().log, imsi, CREATED) == CountFor(s.Mgr().log, imsi, DELETED)
    ensures |Story(s.Mgr().log, imsi)| % 2 == 0
  {
    ReachableInv(c, s, us, cs, blacklist, w);
    RecordsBalance(s.Mgr().log, imsi);
    StoriesAlternate(s.Mgr().log, imsi);
  }

  /** In every reachable state, if the loop last checked at most `d` ago, every
      active session has an age from zero to the timeout plus three seconds plus `d`. */
  lemma AgeBound(
      c: Settings, s: Loop, us: seq<Micro>, cs: seq<Choice>, blacklist: set<Imsi>, w: World, d: int, k: Imsi)
    requires Reachable(c, s, us, cs, blacklist, w) && c.timeout > 0
    requires s.Clock() - s.lastCheck <= d && k in s.Mgr().sessions
    ensures 0 <= s.Clock() - s.Mgr().sessions[k] < c.timeout + 3 * SECOND + d
  {
    ReachableInv(c, s, us, cs, blacklist, w);
  }

  lemma {:induction false} ExpireKeepsTable(s: Loop, n: nat, firsts: seq<Imsi>)
    ensures var t := Expire(s, n, firsts).tcp; t.journal == s.tcp.journal && t.clients == s.tcp.clients
  {
    if n > 0 { ExpireKeepsTable(s, n - 1, firsts); }
  }

  lemma EventKeepsStreams(c: Settings, s: Loop, e: Event, choice: Choice)
    requires OwnStreams(s.tcp)
    ensures OwnStreams(OnEvent(c, s, e, choice).tcp)
  {
    match e
    case Timer => if s.phase == DRAINING && s.armed { ExpireKeepsTable(ReadTimer(c, s), Due(c, s), choice.firsts); }
    case TcpAcceptable(incoming) => StepKeepsOwnStreams(Stepper(c.services), s.tcp, Accept(incoming));
    case TcpReadable(fd, packet) => StepKeepsOwnStreams(Stepper(c.services), s.tcp, Data(fd, packet));
    case UdpReadable(arrived) => DatagramsKeepTable(s, arrived);
    case _ =>
  }

  lemma DatagramsKeepTable(s: Loop, arrived: seq<Datagram>)
    ensures var t := OnDatagrams(s, arrived).tcp; t.journal == s.tcp.journal && t.clients == s.tcp.clients
  {
  }

  lemma TopKeepsTable(c: Settings, s: Loop)
    ensures var t := AtTop(c, s).tcp;
            t.journal == s.tcp.journal && (t.clients == s.tcp.clients || t.clients == map[])
  {
  }

  lemma StepKeepsClients(c: Settings, s: Loop, u: Micro, choice: Choice)
    requires OwnStreams(s.tcp)
    ensures OwnStreams(Exec(c, s, u, choice).tcp)
  {
    match u
    case Top => TopKeepsTable(c, s);
    case Ev(e) => EventKeepsStreams(c, s, e, choice);
    case Check => CheckMeans(c, s, choice);
    case Broken =>
  }

  /** In every reachable state of the whole server, whatever datagrams, timers and
      clean-ups came between, each TCP client has been served exactly the greedy
      parse of its own bytes. */
  lemma {:induction false} ServerKeepsClientsApart(
      c: Settings, s: Loop, us: seq<Micro>, cs: seq<Choice>, blacklist: set<Imsi>, w: World)
    requires Reachable(c, s, us, cs, blacklist, w)
    ensures OwnStreams(s.tcp)
    decreases |us|
  {
    var n := |us|;
    if n == 0 {
      FreshServerOwnsStreams(s.tcp.state, true);
    } else {
      var before := ExecAll(c, Started(blacklist, w), us[..n - 1], cs[..n - 1]);
      ServerKeepsClientsApart(c, before, us[..n - 1], cs[..n - 1], blacklist, w);
      StepKeepsClients(c, before, us[n - 1], cs[n - 1]);
    }
  }

  // ----- Draining makes progress -----

  lemma {:induction false} ExpireShrinks(s: Loop, n: nat, firsts: seq<Imsi>)
    ensures var s' := Expire(s, n, firsts);
            s.phase == DRAINING && s'.phase == DRAINING ==> |s'.Mgr().sessions.Keys| + n <= |s.Mgr().sessions.Keys|
  {
    if n > 0 {
      ExpireShrinks(s, n - 1, firsts);
      ShutdownRemovesOne(Expire(s, n - 1, firsts).Mgr(), HintAt(firsts, n - 1));
    }
  }

  lemma SubsetSize<T>(a: set<T>, b: set<T>)
    requires a <= b
    ensures |a| <= |b|
  {
    if a != {} {
      var x :| x in a;
      SubsetSize(a - {x}, b - {x});
    }
  }

  /** Still draining: the timer goes on, and nobody broke off the loop. */
  ghost predicate Draining(s: Loop) {
    s.phase == DRAINING && s.armed && s.Mgr().draining && !s.exited
  }

  lemma TimerShrinks(c: Settings, s: Loop, firsts: seq<Imsi>)
    requires Draining(s) && Draining(OnTimer(c, s, firsts))
    ensures var s' := OnTimer(c, s, firsts);
            && s'.fired == s.fired + Due(c, s)
            && |s'.Mgr().sessions.Keys| + (s'.fired - s.fired) <= |s.Mgr().sessions.Keys|
  {
    ExpireShrinks(ReadTimer(c, s), Due(c, s), firsts);
    ExpireDrains(ReadTimer(c, s), Due(c, s), firsts);
  }

  lemma OthersShrink(c: Settings, s: Loop, u: Micro, choice: Choice)
    requires Draining(s) && !(u.Ev? && u.e.Timer?)
    ensures var s' := Exec(c, s, u, choice); s'.phase == DRAINING && SameTimer(s, s')
  {
    match u
    case Ev(e) => EventQuietly(c, s, e, choice);
    case Check => CheckMeans(c, s, choice);
    case _ =>
  }

  lemma StepShrinks(c: Settings, s: Loop, u: Micro, choice: Choice)
    requires Draining(s)
    requires var s' := Exec(c, s, u, choice); s'.phase == DRAINING && !s'.exited
    ensures var s' := Exec(c, s, u, choice);
            && Draining(s') && s'.armedAt == s.armedAt
            && |s'.Mgr().sessions.Keys| + s'.fired <= |s.Mgr().sessions.Keys| + s.fired
  {
    var s' := Exec(c, s, u, choice);
    StepAdvances(c, s, u, choice);
    if u.Ev? && u.e.Timer? {
      TimerAdvances(c, s, choice.firsts);
      TimerShrinks(c, s, choice.firsts);
    } else {
      OthersShrink(c, s, u, choice);
      SubsetSize(s'.Mgr().sessions.Keys, s.Mgr().sessions.Keys);
    }
  }

  /** While a loop is still draining, the sessions left and the expirations read since
      make up at most the sessions at first, however they were batched and whatever
      came between. */
  lemma {:induction false} DrainProgress(c: Settings, s: Loop, us: seq<Micro>, cs: seq<Choice>)
    requires |us| == |cs| && Draining(s)
    requires var s' := ExecAll(c, s, us, cs); s'.phase == DRAINING && !s'.exited
    ensures var s' := ExecAll(c, s, us, cs);
            && Draining(s') && s'.armedAt == s.armedAt
            && |s'.Mgr().sessions.Keys| + (s'.fired - s.fired) <= |s.Mgr().sessions.Keys|
    decreases |us|
  {
    var n := |us|;
    if n > 0 {
      var before := ExecAll(c, s, us[..n - 1], cs[..n - 1]);
      RunAdvances(c, s, us[..n - 1], cs[..n - 1]);
      StepAdvances(c, before, us[n - 1], cs[n - 1]);
      DrainProgress(c, s, us[..n - 1], cs[..n - 1]);
      StepShrinks(c, before, us[n - 1], cs[n - 1]);
    }
  }

  // ----- The timer -----

  lemma MulMono(a: nat, b: int, c: int)
    requires b <= c
    ensures a * b <= a * c
  {
  }

  lemma QuotientBounds(a: int, b: int)
    requires a >= 0 && b > 0
    ensures 0 <= a / b && a / b * b <= a < (a / b + 1) * b
  {
    assert a == b * (a / b) + a % b;
  }

  /** The computed timer can be armed exactly for rates 2 to 1000. */
  lemma ArmableExactly(rate: int)
    requires rate > 0
    ensures Armable(rate) <==> 2 <= rate <= 1000
  {
    QuotientBounds(1000, rate);
    var i := 1000 / rate;
    if rate <= 1000 { MulMono(i + 1, rate, 1000); }
    if rate >= 2 { MulMono(i, 2, rate); }
    if rate > 1000 { MulMono(i, 1001, rate); }
  }

  /** When the expirations suffice for the sessions there are and one more. */
  function Deadline(c: Settings, s: Loop): Instant
    requires c.rate > 0
  {
    s.armedAt + (s.fired + |s.Mgr().sessions.Keys| + 1) * Interval(c.rate)
  }

  lemma ReadBefore(c: Settings, s: Loop, s': Loop)
    requires TimerInv(c, s') && s'.phase == DRAINING && c.rate > 0 && Armable(c.rate)
    requires s'.armedAt == s.armedAt && s'.fired <= s.fired + |s.Mgr().sessions.Keys|
    ensures s'.lastRead < Deadline(c, s)
  {
    QuotientBounds(s'.lastRead - s'.armedAt, Interval(c.rate));
    MulMono(Interval(c.rate), s'.fired + 1, s.fired + |s.Mgr().sessions.Keys| + 1);
  }

  /** A loop that still drains, `n` sessions having been there and `k` expirations
      read at an earlier moment, has last read the timer less than `k + n + 1`
      intervals after it was armed. */
  lemma DrainDeadline(
      c: Settings, s: Loop, us: seq<Micro>, cs: seq<Choice>, blacklist: set<Imsi>, w: World,
      vs: seq<Micro>, ds: seq<Choice>)
    requires Reachable(c, s, us, cs, blacklist, w) && c.timeout > 0 && c.rate > 0
    requires |vs| == |ds| && Draining(s)
    requires var s' := ExecAll(c, s, vs, ds); s'.phase == DRAINING && !s'.exited
    ensures ExecAll(c, s, vs, ds).lastRead < Deadline(c, s)
  {
    var s' := ExecAll(c, s, vs, ds);
    DrainProgress(c, s, vs, ds);
    ReachableMore(c, s, us, cs, blacklist, w, vs, ds);
    ReachableInv(c, s', us + vs, cs + ds, blacklist, w);
    ReadBefore(c, s, s');
  }

  /** So, from that time on, one more reading of the timer and the head of the next
      turn stop the server. */
  lemma DrainEnds(
      c: Settings, s: Loop, us: seq<Micro>, cs: seq<Choice>, blacklist: set<Imsi>, w: World,
      vs: seq<Micro>, ds: seq<Choice>, x: Choice, y: Choice)
    requires Reachable(c, s, us, cs, blacklist, w) && c.timeout > 0 && c.rate > 0
    requires |vs| == |ds| && Draining(s) && !ExecAll(c, s, vs, ds).exited
    requires ExecAll(c, s, vs, ds).Clock() >= Deadline(c, s)
    ensures Exec(c, Exec(c, ExecAll(c, s, vs, ds), Ev(Timer), x), Top, y).phase == STOPPED
  {
    var s' := ExecAll(c, s, vs, ds);
    var t := Exec(c, s', Ev(Timer), x);
    RunAdvances(c, s, vs, ds);
    StepAdvances(c, s', Ev(Timer), x);
    ExecAllSnoc(c, s, vs, ds, Ev(Timer), x);
    if s'.phase == DRAINING { ReadNow(c, s', x.firsts); }
    if t.phase == DRAINING {
      DrainProgress(c, s, vs, ds);
      DrainDeadline(c, s, us, cs, blacklist, w, vs + [Ev(Timer)], ds + [x]);
    }
  }

  lemma ReadNow(c: Settings, s: Loop, firsts: seq<Imsi>)
    requires s.phase == DRAINING
    ensures var s' := OnTimer(c, s, firsts);
            s'.Clock() == s.Clock() && s'.exited == s.exited && (s.armed ==> s'.lastRead == s.Clock())
  {
    ExpireDrains(ReadTimer(c, s), Due(c, s), firsts);
  }

  // ----- The rate of the drain -----

  /** The sessions drained since the timer was armed are no more than the configured
      rate allows. */
  predicate WithinRate(c: Settings, s: Loop) {
    s.drained * SECOND <= c.rate * (s.Clock() - s.armedAt)
  }

  /** They never come faster than one an interval. */
  lemma OneAnInterval(c: Settings, s: Loop)
    requires TimerInv(c, s) && c.rate > 0
    ensures s.drained * Interval(c.rate) <= s.Clock() - s.armedAt
  {
    if s.fired > 0 {
      QuotientBounds(s.lastRead - s.armedAt, Interval(c.rate));
      MulMono(Interval(c.rate), s.drained, s.fired);
    }
  }

  /** The rates that the whole milliseconds of the interval meet, and those for which
      the timer never fires. */
  predicate SafeRate(rate: int)
    requires rate > 0
  {
    rate > 1000 || 1000 % rate == 0
  }

  lemma SafeIsWithin(c: Settings, s: Loop)
    requires TimerInv(c, s) && c.rate > 0 && SafeRate(c.rate)
    ensures WithinRate(c, s)
  {
    OneAnInterval(c, s);
    ArmableExactly(c.rate);
    if Armable(c.rate) {
      var i := 1000 / c.rate;
      assert i * c.rate == 1000;
      assert s.drained * SECOND == s.drained * Interval(c.rate) * c.rate by {
        assert Interval(c.rate) * c.rate == SECOND;
      }
      MulMono(c.rate, s.drained * Interval(c.rate), s.Clock() - s.armedAt);
    } else {
      assert s.drained == 0;
      MulMono(c.rate, 0, s.Clock() - s.armedAt);
    }
  }

  // ----- Runs by turns -----

  /** The states a started server comes to at the end of turns: each opens with its
      head and closes with the periodic part. */
  ghost predicate Ran(c: Settings, s: Loop, turns: seq<Turn>, cs: seq<Choice>, blacklist: set<Imsi>, w: World) {
    Reachable(c, s, AllSteps(turns), cs, blacklist, w)
  }

  const ANY: Choice := Choice([], [])

  ghost function AfterEvents(c: Settings, s: Loop, events: seq<Event>): Loop {
    if events == [] then s
    else Exec(c, AfterEvents(c, s, events[..|events| - 1]), Ev(events[|events| - 1]), ANY)
  }

  /** One turn with this batch of events. */
  ghost function AfterTurn(c: Settings, s: Loop, events: seq<Event>): Loop {
    Exec(c, AfterEvents(c, Exec(c, s, Top, ANY), events), Check, ANY)
  }

  lemma {:induction false} EventsRun(c: Settings, s: Loop, events: seq<Event>) returns (cs: seq<Choice>)
    ensures |cs| == |Events(events)| && ExecAll(c, s, Events(events), cs) == AfterEvents(c, s, events)
  {
    if events == [] {
      cs := [];
    } else {
      var init := events[..|events| - 1];
      cs := EventsRun(c, s, init);
      ExecAllSnoc(c, s, Events(init), cs, Ev(events[|events| - 1]), ANY);
      cs := cs + [ANY];
    }
  }

  lemma TurnRun(c: Settings, s: Loop, events: seq<Event>) returns (cs: seq<Choice>)
    ensures |cs| == |Steps(Poll(events))| && ExecAll(c, s, Steps(Poll(events)), cs) == AfterTurn(c, s, events)
  {
    var s' := Exec(c, s, Top, ANY);
    var ds := EventsRun(c, s', events);
    ExecAllSnoc(c, s', Events(events), ds, Check, ANY);
    ExecAllSnoc(c, s, [], [], Top, ANY);
    assert [] + [Top] == [Top] && [] + [ANY] == [ANY];
    ExecAllAppend(c, s, [Top], [ANY], Events(events) + [Check], ds + [ANY]);
    cs := [ANY] + (ds + [ANY]);
  }

  lemma TurnMore(
      c: Settings, s: Loop, turns: seq<Turn>, cs: seq<Choice>, blacklist: set<Imsi>, w: World, events: seq<Event>)
      returns (cs': seq<Choice>)
    requires Ran(c, s, turns, cs, blacklist, w)
    ensures Ran(c, AfterTurn(c, s, events), turns + [Poll(events)], cs', blacklist, w)
  {
    var ds := TurnRun(c, s, events);
    ExecAllAppend(c, Started(blacklist, w), AllSteps(turns), cs, Steps(Poll(events)), ds);
    assert (turns + [Poll(events)])[..|turns|] == turns;
    cs' := cs + ds;
  }

  lemma OneEvent(c: Settings, s: Loop, e: Event)
    ensures AfterEvents(c, s, [e]) == Exec(c, s, Ev(e), ANY)
  {
    assert [e][..0] == [];
  }

  lemma TwoEvents(c: Settings, s: Loop, e: Event, e': Event)
    ensures AfterEvents(c, s, [e, e']) == Exec(c, Exec(c, s, Ev(e), ANY), Ev(e'), ANY)
  {
    OneEvent(c, s, e);
    assert [e, e'][..1] == [e];
  }

  const SUBSCRIBER: Imsi := "001010123456789"

  lemma SubscriberComes(c: Settings, w: World)
    requires w.tape == []
    ensures var s := OnDatagrams(Started({}, w), [Datagram(SUBSCRIBER, 0, true)]);
            && s == Started({}, w).(tcp := s.tcp, incoming := [], sent := s.sent)
            && s.Mgr().sessions.Keys == {SUBSCRIBER} && s.tcp.state.world == w && s.tcp.running
  {
    var m := Initial({});
    var batch := [Datagram(SUBSCRIBER, 0, true)];
    assert IsValidImsi(SUBSCRIBER) && !batch[0].EndsBatch();
    assert [] + batch == batch && batch[1..] == [];
    var m' := Create(m, SUBSCRIBER, w.clock).0;
    assert UdpServers.Serve(m, w, batch[0]) == (m', w, CREATED_TEXT) && m'.sessions.Keys == {SUBSCRIBER};
    assert ProcessEvent(m', w, []) == Batch(m', w, [], []);
    assert ProcessEvent(m, w, batch) == Batch(m', w, [Reply(CREATED_TEXT, 0)], []);
  }

  /** Shutdown has just been asked for in a running loop. */
  ghost predicate Asked(s: Loop) {
    s.phase == RUNNING && !s.exited && s.tcp.state.request && s.tcp.running && s.fired == s.drained == 0
  }

  /** The first turn: a subscriber comes and a shutdown is asked for. */
  lemma BusyTurn(c: Settings, w: World) returns (s: Loop, turns: seq<Turn>, cs: seq<Choice>)
    requires w.tape == []
    ensures Ran(c, s, turns, cs, {}, w) && Asked(s)
    ensures s.Mgr().sessions.Keys == {SUBSCRIBER} && s.tcp.state.world == w
  {
    var comes := UdpReadable([Datagram(SUBSCRIBER, 0, true)]);
    var s0 := Started({}, w);
    cs := TurnMore(c, s0, [], [], {}, w, [comes, HttpStop]);
    s, turns := AfterTurn(c, s0, [comes, HttpStop]), [] + [Poll([comes, HttpStop])];
    SubscriberComes(c, w);
    TwoEvents(c, s0, comes, HttpStop);
    var asked := AfterEvents(c, s0, [comes, HttpStop]);
    assert Exec(c, s0, Top, ANY) == s0;
    StillCheck(c, asked);
  }

  lemma StillCheck(c: Settings, s: Loop)
    requires !s.Halted() && s.tcp.state.world.tape == [] && s.lastCleanup == s.Clock()
    ensures Exec(c, s, Check, ANY) == s.(lastCheck := s.Clock())
  {
  }

  /** The first turn: nobody comes and a shutdown is asked for. */
  lemma IdleTurn(c: Settings, blacklist: set<Imsi>, w: World) returns (s: Loop, turns: seq<Turn>, cs: seq<Choice>)
    ensures Ran(c, s, turns, cs, blacklist, w) && Asked(s) && s.Mgr().sessions.Keys == {}
  {
    var s0 := Started(blacklist, w);
    cs := TurnMore(c, s0, [], [], blacklist, w, [HttpStop]);
    s, turns := AfterTurn(c, s0, [HttpStop]), [] + [Poll([HttpStop])];
    OneEvent(c, s0, HttpStop);
    var asked := Exec(c, s0, Ev(HttpStop), ANY);
    CheckMeans(c, asked, ANY);
    CleanLeavesTheYoung(asked.Mgr(), [], s.Clock(), c.timeout);
  }

  /** What the head of the next turn makes of it. */
  lemma Armed(c: Settings, s: Loop)
    requires Asked(s)
    ensures var s' := Exec(c, s, Top, ANY);
            && s'.phase == DRAINING && s'.armed == Armable(c.rate) && s'.armedAt == s'.Clock()
            && s'.Mgr().sessions == s.Mgr().sessions && s'.Mgr().log == s.Mgr().log
            && s'.tcp.state.world == s.tcp.state.world && s'.tcp.running && s'.tcp.stopAccepting
            && s'.fired == s'.drained == 0 && !s'.exited
  {
  }

  /** The timer fires once. */
  lemma FiresOnce(c: Settings, s: Loop)
    requires c.rate > 0 && Armable(c.rate) && s.phase == DRAINING && !s.exited && s.fired == s.drained == 0
    requires s.armed && s.armedAt == s.Clock() && |s.Mgr().sessions.Keys| <= 1
    ensures var s' := AfterEvents(c, s, [Pass(Interval(c.rate)), Timer]);
            && s'.drained == |s.Mgr().sessions.Keys| && s'.Clock() == s'.armedAt + Interval(c.rate)
            && s'.tcp.state.world.tape == s.tcp.state.world.tape
            && !s'.exited && s'.phase == if s.Mgr().sessions.Keys == {} then STOPPING else DRAINING
  {
    var later := Exec(c, s, Ev(Pass(Interval(c.rate))), ANY);
    TwoEvents(c, s, Pass(Interval(c.rate)), Timer);
    assert Due(c, later) == 1;
    assert Expire(ReadTimer(c, later), 1, []) == ExpireOnce(Expire(ReadTimer(c, later), 0, []), "");
  }

  lemma CheckStill(c: Settings, s: Loop)
    requires !s.Halted()
    ensures var s' := Exec(c, s, Check, ANY);
            SameTimer(s, s') && !s'.exited && (s.tcp.state.world.tape == [] ==> s'.Clock() == s.Clock())
  {
    CheckMeans(c, s, ANY);
  }

  /** The second turn, in which the timer fires once. */
  lemma DrainTurn(c: Settings, s: Loop)
    requires Asked(s) && c.rate > 0 && Armable(c.rate) && |s.Mgr().sessions.Keys| <= 1
    ensures var s' := AfterTurn(c, s, [Pass(Interval(c.rate)), Timer]);
            && !s'.exited && s'.drained == |s.Mgr().sessions.Keys|
            && s'.phase == (if s.Mgr().sessions.Keys == {} then STOPPING else DRAINING)
            && (s.tcp.state.world.tape == [] ==> s'.Clock() == s'.armedAt + Interval(c.rate))
  {
    Armed(c, s);
    FiresOnce(c, Exec(c, s, Top, ANY));
    CheckStill(c, AfterEvents(c, Exec(c, s, Top, ANY), [Pass(Interval(c.rate)), Timer]));
  }

  lemma TooFast(c: Settings, s: Loop)
    requires c.rate > 0 && !SafeRate(c.rate) && s.drained == 1 && s.Clock() == s.armedAt + Interval(c.rate)
    ensures !WithinRate(c, s)
  {
    assert 1000 == c.rate * (1000 / c.rate) + 1000 % c.rate;
    assert c.rate * Interval(c.rate) == c.rate * (1000 / c.rate) * MILLISECOND;
  }

  lemma GoesTooFast(c: Settings, w: World) returns (s: Loop, turns: seq<Turn>, cs: seq<Choice>)
    requires c.rate > 0 && !SafeRate(c.rate) && w.tape == []
    ensures Ran(c, s, turns, cs, {}, w) && !WithinRate(c, s)
  {
    ArmableExactly(c.rate);
    assert 1000 % 1 == 0;
    var events := [Pass(Interval(c.rate)), Timer];
    var s1, turns1, cs1 := BusyTurn(c, w);
    cs := TurnMore(c, s1, turns1, cs1, {}, w, events);
    DrainTurn(c, s1);
    s, turns := AfterTurn(c, s1, events), turns1 + [Poll(events)];
    TooFast(c, s);
  }

  /** The drain of the main loop keeps the configured rate in every run of turns from
      the start of a server, and then also at every moment within them, iff the rate
      divides 1000 or is above it, when the timer never fires. */
  lemma DrainRateKeptExactly(c: Settings)
    requires c.timeout > 0 && c.rate > 0
    ensures (forall s, turns, cs, blacklist, w :: Ran(c, s, turns, cs, blacklist, w) ==> WithinRate(c, s))
            <==> SafeRate(c.rate)
    ensures SafeRate(c.rate) ==>
              forall s, us, cs, blacklist, w :: Reachable(c, s, us, cs, blacklist, w) ==> WithinRate(c, s)
  {
    if SafeRate(c.rate) {
      forall s, us, cs, blacklist, w | Reachable(c, s, us, cs, blacklist, w) ensures WithinRate(c, s) {
        ReachableInv(c, s, us, cs, blacklist, w);
        SafeIsWithin(c, s);
      }
    } else {
      var s, turns, cs := GoesTooFast(c, World(0, []));
    }
  }

  // ----- Breaking off -----

  /** Waiting for events fails, or an exception comes out of refusing a connection. */
  predicate BreaksOff(s: Loop, u: Micro) {
    !s.Halted()
    && (u.Broken?
        || (u.Ev? && u.e.TcpAcceptable? && u.e.incoming.AcceptFailed? && s.tcp.running && s.tcp.stopAccepting))
  }

  ghost predicate EverBreaksOff(c: Settings, s: Loop, us: seq<Micro>, cs: seq<Choice>)
    requires |us| == |cs|
    decreases |us|
  {
    var n := |us|;
    n > 0 && (EverBreaksOff(c, s, us[..n - 1], cs[..n - 1])
              || BreaksOff(ExecAll(c, s, us[..n - 1], cs[..n - 1]), us[n - 1]))
  }

  lemma ExitedStep(c: Settings, s: Loop, u: Micro, choice: Choice)
    ensures Exec(c, s, u, choice).exited <==> s.exited || BreaksOff(s, u)
  {
    match u
    case Ev(Timer) => ExpireDrains(ReadTimer(c, s), Due(c, s), choice.firsts);
    case Check => CheckMeans(c, s, choice);
    case _ =>
  }

  /** Nothing else leaves the loop before it has stopped. */
  lemma {:induction false} BrokenOffExactly(
      c: Settings, s: Loop, us: seq<Micro>, cs: seq<Choice>, blacklist: set<Imsi>, w: World)
    requires Reachable(c, s, us, cs, blacklist, w)
    ensures s.exited <==> EverBreaksOff(c, Started(blacklist, w), us, cs)
    decreases |us|
  {
    var n := |us|;
    if n > 0 {
      var before := ExecAll(c, Started(blacklist, w), us[..n - 1], cs[..n - 1]);
      BrokenOffExactly(c, before, us[..n - 1], cs[..n - 1], blacklist, w);
      ExitedStep(c, before, us[n - 1], cs[n - 1]);
    }
  }

  lemma RefusingBreaksOff(c: Settings, s: Loop)
    requires Asked(s)
    ensures var s' := AfterTurn(c, s, [TcpAcceptable(AcceptFailed)]);
            s'.exited && s'.phase == DRAINING && s'.Mgr().sessions == s.Mgr().sessions
  {
    Armed(c, s);
    OneEvent(c, Exec(c, s, Top, ANY), TcpAcceptable(AcceptFailed));
  }

  /** With any configuration a run of two turns breaks a shutdown off so, a session
      being left whose end is never recorded. */
  lemma ShutdownBreaksOff(c: Settings, w: World) returns (s: Loop, turns: seq<Turn>, cs: seq<Choice>)
    requires w.tape == [] && c.timeout > 0
    ensures Ran(c, s, turns, cs, {}, w) && s.exited && s.phase == DRAINING
    ensures CountFor(s.Mgr().log, SUBSCRIBER, CREATED) == CountFor(s.Mgr().log, SUBSCRIBER, DELETED) + 1
  {
    var s1, turns1, cs1 := BusyTurn(c, w);
    var events := [TcpAcceptable(AcceptFailed)];
    cs := TurnMore(c, s1, turns1, cs1, {}, w, events);
    s, turns := AfterTurn(c, s1, events), turns1 + [Poll(events)];
    RefusingBreaksOff(c, s1);
    ReachableInv(c, s, AllSteps(turns), cs, {}, w);
    RecordsBalance(s.Mgr().log, SUBSCRIBER);
  }

  // ----- Stopping at all -----

  lemma LastTurn(c: Settings, s: Loop)
    requires s.phase == STOPPING && !s.exited
    ensures AfterTurn(c, s, []).phase == STOPPED
  {
  }

  lemma Stops(c: Settings, blacklist: set<Imsi>, w: World) returns (s: Loop, turns: seq<Turn>, cs: seq<Choice>)
    requires c.timeout > 0 && c.rate > 0 && Armable(c.rate)
    ensures Ran(c, s, turns, cs, blacklist, w) && s.phase == STOPPED
  {
    var events := [Pass(Interval(c.rate)), Timer];
    var s1, turns1, cs1 := IdleTurn(c, blacklist, w);
    var cs2 := TurnMore(c, s1, turns1, cs1, blacklist, w, events);
    DrainTurn(c, s1);
    var s2, turns2 := AfterTurn(c, s1, events), turns1 + [Poll(events)];
    cs := TurnMore(c, s2, turns2, cs2, blacklist, w, []);
    LastTurn(c, s2);
    s, turns := AfterTurn(c, s2, []), turns2 + [Poll([])];
  }

  /** Some run of turns brings the server to rest by itself iff the configured rate is
      between 2 and 1000: outside, the drain timer never fires. */
  lemma CanStopExactly(c: Settings, blacklist: set<Imsi>, w: World)
    requires c.timeout > 0 && c.rate > 0
    ensures (exists s, turns, cs :: Ran(c, s, turns, cs, blacklist, w) && s.phase == STOPPED)
            <==> 2 <= c.rate <= 1000
  {
    ArmableExactly(c.rate);
    forall s, turns, cs | Ran(c, s, turns, cs, blacklist, w) && s.phase == STOPPED ensures Armable(c.rate) {
      ReachableInv(c, s, AllSteps(turns), cs, blacklist, w);
    }
    if Armable(c.rate) {
      var s, turns, cs := Stops(c, blacklist, w);
    }
  }
}
