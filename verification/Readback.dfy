/** From the session manager to the CDR file: what the server writes reads back. */
module Readback {
  import opened Protocol
  import opened TcpSerializer
  import opened Sessions
  import opened SessionLog
  import opened Environment
  import opened TcpFraming
  import opened TcpHandlers
  import opened LoopSteps
  import opened ShutdownSafety
  import opened CdrText
  import opened CdrAccess
  import Udp = UdpServers
  import Files = FileCdrWriters

  // The manager itself takes any string for a subscriber; the servers in front of
  // it let only valid ones through.

  ghost predicate AllValid(m: Manager) {
    (forall r :: r in m.log ==> IsValidImsi(r.imsi)) && (forall k :: k in m.sessions ==> IsValidImsi(k))
  }

  lemma CreateKeepsValid(m: Manager, imsi: Imsi, now: Instant)
    requires AllValid(m) && IsValidImsi(imsi)
    ensures AllValid(Create(m, imsi, now).0)
  {
  }

  lemma TerminateKeepsValid(m: Manager, imsi: Imsi)
    requires AllValid(m)
    ensures AllValid(Terminate(m, imsi).0)
  {
  }

  lemma {:induction false} VisitsKeepValid(m: Manager, order: seq<Imsi>, now: Instant, timeout: int)
    requires AllValid(m)
    ensures AllValid(VisitAll(m, order, now, timeout))
  {
    if order != [] { VisitsKeepValid(m, order[..|order| - 1], now, timeout); }
  }

  lemma HandleKeepsValid(services: Services, s: HState, request: Message)
    requires AllValid(s.mgr)
    ensures AllValid(HandleAndSend(services, s, request).0.mgr)
  {
    var (w, t) := Environment.Next(s.world);
    HandleTouches(services, t.junk, s.(world := w), request);
    var p := services.parse(request.data).imsi;
    if p.Text? {
      if IsValidImsi(p.value) { CreateKeepsValid(s.mgr, p.value, w.clock); }
      TerminateKeepsValid(s.mgr, p.value);
    }
  }

  lemma {:induction false} DriveKeepsValid(services: Services, s: HState, buffer: Bytes)
    requires AllValid(s.mgr)
    ensures AllValid(Drive(Stepper(services), s, buffer).state.mgr)
    decreases |buffer|
  {
    match Deserializer(buffer)
    case None =>
    case Some(m) =>
      var (s', outcome) := HandleAndSend(services, s, m);
      assert Stepper(services)(s, m) == (s', outcome);
      HandleKeepsValid(services, s, m);
      if outcome.Answered? { DriveKeepsValid(services, s', buffer[Consumed(m)..]); }
  }

  lemma {:induction false} BatchKeepsValid(m: Manager, w: World, queue: seq<Udp.Datagram>)
    requires AllValid(m)
    ensures AllValid(Udp.ProcessEvent(m, w, queue).mgr)
    decreases |queue|
  {
    if queue != [] && !queue[0].EndsBatch() {
      var (m', w', text) := Udp.Serve(m, w, queue[0]);
      if IsValidImsi(queue[0].data) { CreateKeepsValid(m, queue[0].data, w'.clock); }
      if queue[0].sendOk { BatchKeepsValid(m', w', queue[1..]); }
    }
  }

  lemma {:induction false} ExpireKeepsValid(s: Loop, n: nat, firsts: seq<Imsi>)
    requires AllValid(s.Mgr())
    ensures AllValid(Expire(s, n, firsts).Mgr())
  {
    if n > 0 {
      ExpireKeepsValid(s, n - 1, firsts);
      var m := Expire(s, n - 1, firsts).Mgr();
      if m.sessions.Keys != {} { TerminateKeepsValid(m, First(m.sessions.Keys, HintAt(firsts, n - 1))); }
    }
  }

  lemma EventKeepsValid(c: Settings, s: Loop, e: Event, choice: Choice)
    requires AllValid(s.Mgr())
    ensures AllValid(OnEvent(c, s, e, choice).Mgr())
  {
    match e
    case Timer => if s.phase == DRAINING && s.armed { ExpireKeepsValid(ReadTimer(c, s), Due(c, s), choice.firsts); }
    case UdpReadable(arrived) => BatchKeepsValid(s.Mgr(), s.tcp.state.world, s.incoming + arrived);
    case TcpReadable(fd, packet) =>
      if fd in s.tcp.clients && packet.Packet? {
        DriveKeepsValid(c.services, s.tcp.state, s.tcp.clients[fd] + packet.data);
      }
    case _ =>
  }

  lemma CheckKeepsValid(c: Settings, s: Loop, choice: Choice, s': Loop)
    requires AllValid(s.Mgr()) && Checked(c, s, choice, s')
    ensures AllValid(s'.Mgr())
  {
    VisitsKeepValid(s.Mgr(), Enumeration(s.Mgr().sessions.Keys, choice.order), s'.Clock(), c.timeout);
  }

  lemma {:induction false} ReachableValid(
      c: Settings, s: Loop, us: seq<Micro>, cs: seq<Choice>, blacklist: set<Imsi>, w: World)
    requires Reachable(c, s, us, cs, blacklist, w)
    ensures AllValid(s.Mgr())
    decreases |us|
  {
    var n := |us|;
    if n > 0 {
      var before := ExecAll(c, Started(blacklist, w), us[..n - 1], cs[..n - 1]);
      ReachableValid(c, before, us[..n - 1], cs[..n - 1], blacklist, w);
      match us[n - 1] {
        case Ev(e) => EventKeepsValid(c, before, e, cs[n - 1]);
        case Check =>
          CheckMeans(c, before, cs[n - 1]);
          CheckKeepsValid(c, before, cs[n - 1], AtCheck(c, before, cs[n - 1]));
        case _ =>
      }
    }
  }

  /** The records of a log as the file writer is given them, each with the local
      time of its writing. */
  function Stamped(log: seq<Cdr>, times: seq<string>): seq<CdrRecord>
    requires |times| == |log|
  {
    seq(|log|, i requires 0 <= i < |log| => CdrRecord(log[i].imsi, ActionText(log[i].action), times[i]))
  }

  predicate AllClean(times: seq<string>) {
    forall i :: 0 <= i < |times| ==> CleanField(times[i])
  }

  lemma StampedReadsBack(log: seq<Cdr>, times: seq<string>)
    requires |times| == |log| && forall r :: r in log ==> IsValidImsi(r.imsi)
    ensures Files.Reread(Stamped(log, times)) == Stamped(log, times) <==> AllClean(times)
  {
    var rs := Stamped(log, times);
    Files.RereadExactly(rs);
    forall i | 0 <= i < |times| ensures CleanRecord(rs[i]) <==> CleanField(times[i]) {
      assert log[i] in log;
      if CleanField(times[i]) { ManagerRecordsAreClean(log[i].imsi, log[i].action, times[i]); }
    }
    assert forall i :: 0 <= i < |rs| ==> rs[i] in rs;
  }

  /** In every reachable state of the server its whole log reads back from the CDR
      file record by record iff no time stamp has a comma, a newline or surrounding
      blanks: nothing a subscriber or a client sends can spoil it. */
  lemma LogReadsBackExactly(
      c: Settings, s: Loop, us: seq<Micro>, cs: seq<Choice>, blacklist: set<Imsi>, w: World, times: seq<string>)
    requires Reachable(c, s, us, cs, blacklist, w) && |times| == |s.Mgr().log|
    ensures var rs := Stamped(s.Mgr().log, times);
            Files.Reread(rs) == rs <==> AllClean(times)
  {
    ReachableValid(c, s, us, cs, blacklist, w);
    StampedReadsBack(s.Mgr().log, times);
  }

  // ----- Requests for recent records -----

  /** What a reply tells of each record, without its time. */
  function Told(rs: seq<CdrRecord>): seq<(string, string)> {
    seq(|rs|, i requires 0 <= i < |rs| => (rs[i].imsi, rs[i].action))
  }

  function Said(log: seq<Cdr>): seq<(string, string)> {
    seq(|log|, i requires 0 <= i < |log| => (log[i].imsi, ActionText(log[i].action)))
  }

  /** Whatever the times, imsi and action of each record come back. */
  lemma ToldIsSaid(log: seq<Cdr>, times: seq<string>)
    requires |times| == |log| && forall r :: r in log ==> IsValidImsi(r.imsi)
    ensures Told(Files.Reread(Stamped(log, times))) == Said(log)
  {
    var rs := Stamped(log, times);
    forall i | 0 <= i < |log| ensures Told(Files.Reread(rs))[i] == Said(log)[i] {
      assert log[i] in log;
      ManagerRecordsAreClean(log[i].imsi, log[i].action, "");
      FirstFieldsComeBack(rs[i]);
    }
  }

  lemma SaidRecent(log: seq<Cdr>, limit: nat)
    ensures Said(Recent(log, limit)) == Recent(Said(log), limit)
  {
  }

  lemma ToldRecent(rs: seq<CdrRecord>, limit: nat)
    ensures Told(Recent(rs, limit)) == Recent(Told(rs), limit)
  {
  }

  /** These records are the last of the log, and what the file writer, given the log at
      these times, returns from its file for that limit, the times apart; if the times
      are clean, it returns the records as it was given them. */
  ghost predicate FromFile(log: seq<Cdr>, times: seq<string>, limit: nat, records: seq<Cdr>)
    requires |times| == |log|
  {
    && LastOnes(log, limit, records)
    && (var recent := Recent(Stamped(log, times), limit);
        Said(records) == Told(Files.Reread(recent)) && (AllClean(times) ==> Files.Reread(recent) == recent))
  }

  lemma RecentFromFile(log: seq<Cdr>, times: seq<string>, limit: nat)
    requires |times| == |log| && forall r :: r in log ==> IsValidImsi(r.imsi)
    ensures FromFile(log, times, limit, Recent(log, limit))
  {
    var file := Stamped(log, times);
    ToldIsSaid(log, times);
    StampedReadsBack(log, times);
    RecentAreLast(log, limit);
    Files.RecentCommute(file, limit);
    SaidRecent(log, limit);
    ToldRecent(Files.Reread(file), limit);
  }

  lemma CdrReply(services: Services, junk: Byte, s: HState, request: Message)
    requires request.header.command == 3 && services.hasCdrWriter
    ensures var asked := services.parse(request.data).limit; var limit := if asked.Some? then asked.value else 100;
            Handle(services, junk, s, request).1
            == OkReply(services, 3, CdrDoc(limit, Recent(s.mgr.log, limit)))
  {
  }

  /** In every reachable state of the server the reply to GET_CDR (3) tells the last
      records of the log, 100 of them unless another limit is asked for, and exactly
      what the file writer, given the log record by record at any times, returns from
      its file for that limit. */
  lemma RepliesFromFile(
      c: Settings, s: Loop, us: seq<Micro>, cs: seq<Choice>, blacklist: set<Imsi>, w: World, times: seq<string>,
      junk: Byte, request: Message)
    requires Reachable(c, s, us, cs, blacklist, w) && |times| == |s.Mgr().log|
    requires request.header.command == 3 && c.services.hasCdrWriter
    ensures var asked := c.services.parse(request.data).limit; var limit := if asked.Some? then asked.value else 100;
            exists records ::
              && Handle(c.services, junk, s.tcp.state, request).1 == OkReply(c.services, 3, CdrDoc(limit, records))
              && FromFile(s.Mgr().log, times, limit, records)
  {
    var asked := c.services.parse(request.data).limit;
    var limit := if asked.Some? then asked.value else 100;
    ReachableValid(c, s, us, cs, blacklist, w);
    CdrReply(c.services, junk, s.tcp.state, request);
    RecentFromFile(s.Mgr().log, times, limit);
  }
}
