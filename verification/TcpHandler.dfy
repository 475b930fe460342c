/** Control commands: each is dispatched onto the session manager. */
module TcpHandlers {
  import opened Protocol
  import opened TcpSerializer
  import opened TcpFraming
  import opened CdrAccess
  import opened Sessions
  import opened SessionRuns
  import opened SessionLog
  import opened SessionLaws
  import opened SessionManagers
  import opened Environment

  /** A field of a JSON object: a string or something else. */
  datatype Field = NotText | Text(value: string)
  datatype Params = Params(imsi: Field, limit: Option<nat>)

  /** The documents the replies carry. */
  datatype Doc =
    | StatsDoc(stats: Statistics)
    | SessionsDoc(ages: map<Imsi, int>)
    | CdrDoc(limit: nat, records: seq<Cdr>)
    | ResultDoc(result: string, success: bool)
    | MessageDoc

  /** What the handler is given: the JSON library, which reads a request body and
      writes a document, and perhaps a CDR writer. */
  datatype Services = Services(parse: Bytes -> Params, dump: Doc -> Bytes, hasCdrWriter: bool)

  datatype HState = HState(mgr: Manager, request: bool, world: World)

  /** Whole seconds, towards zero. */
  function Seconds(d: int): int {
    if d >= 0 then d / SECOND else -(-d / SECOND)
  }

  function Ages(sessions: map<Imsi, Instant>, now: Instant): map<Imsi, int> {
    map k | k in sessions :: Seconds(now - sessions[k])
  }

  function CreationDoc(result: CreateResult): Doc {
    match result
    case Created => ResultDoc("created", true)
    case RejectedBlacklist => ResultDoc("rejected", false)
    case AlreadyExists => ResultDoc("exists", false)
    case _ => ResultDoc("error", false)
  }

  function RemovalDoc(removed: bool): Doc {
    if removed then ResultDoc("deleted", true) else ResultDoc("not_found", false)
  }

  function OkReply(services: Services, command: Byte, doc: Doc): Option<Message> {
    Some(CreateJsonMsg(command, STATUS_OK, Some(services.dump(doc))))
  }

  function StartSession(services: Services, s: HState, p: Params): (HState, Option<Message>) {
    match p.imsi
    case NotText => (s, None)
    case Text(imsi) =>
      if imsi == "" || !IsValidImsi(imsi) then (s, Some(CreateJsonMsg(START_SESSION, STATUS_INVALID_PARAMS, None)))
      else
        var (m, result) := Create(s.mgr, imsi, s.world.clock);
        (s.(mgr := m), OkReply(services, START_SESSION, CreationDoc(result)))
  }

  function StopSession(services: Services, s: HState, p: Params): (HState, Option<Message>) {
    match p.imsi
    case NotText => (s, None)
    case Text(imsi) =>
      if imsi == "" || !IsValidImsi(imsi) then (s, Some(CreateJsonMsg(STOP_SESSION, STATUS_INVALID_PARAMS, None)))
      else
        var (m, removed) := Terminate(s.mgr, imsi);
        (s.(mgr := m), OkReply(services, STOP_SESSION, RemovalDoc(removed)))
  }

  /** The version byte of this reply is never set: it is whatever memory held. */
  function UnknownReply(junk: Byte, command: Byte): Message {
    Message(Header(junk, command, STATUS_INVALID_COMMAND, 0), [])
  }

  /** The reply to one request; none when the handler throws. */
  function Handle(services: Services, junk: Byte, s: HState, request: Message): (HState, Option<Message>) {
    var command := request.header.command;
    if command == GET_STATS then
      (s, OkReply(services, GET_STATS, StatsDoc(s.mgr.stats.(active := |s.mgr.sessions|))))
    else if command == GET_SESSIONS then
      (s, OkReply(services, GET_SESSIONS, SessionsDoc(Ages(s.mgr.sessions, s.world.clock))))
    else if command == GET_CDR && !services.hasCdrWriter then
      (s, Some(CreateJsonMsg(GET_CDR, STATUS_ERROR, None)))
    else if command == GET_CDR then
      var limit := match services.parse(request.data).limit case Some(n) => n case None => READ_CDR_LIMIT;
      (s, OkReply(services, GET_CDR, CdrDoc(limit, Recent(s.mgr.log, limit))))
    else if command == START_SESSION then StartSession(services, s, services.parse(request.data))
    else if command == STOP_SESSION then StopSession(services, s, services.parse(request.data))
    else if command == SHUTDOWN then (s.(request := true), OkReply(services, SHUTDOWN, MessageDoc))
    else (s, Some(UnknownReply(junk, command)))
  }

  /** Handling a request and sending its reply, one interaction with the world. */
  function HandleAndSend(services: Services, s: HState, request: Message): (HState, Outcome) {
    var (w, t) := Next(s.world);
    var (s', response) := Handle(services, t.junk, s.(world := w), request);
    match response
    case None => (s', Failed)
    case Some(reply) => (s', if t.sendOk then Answered(reply) else Failed)
  }

  function Stepper(services: Services): (HState, Message) -> (HState, Outcome) {
    (s: HState, m: Message) => HandleAndSend(services, s, m)
  }

  // ----- What the replies mean -----

  /** The answers to START_SESSION and STOP_SESSION, as a client reads them. */
  predicate IsResult(doc: Doc) {
    || doc == ResultDoc("created", true) || doc == ResultDoc("rejected", false)
    || doc == ResultDoc("exists", false) || doc == ResultDoc("error", false)
    || doc == ResultDoc("deleted", true) || doc == ResultDoc("not_found", false)
  }

  /** The library writes different texts for different answers. */
  ghost predicate Separates(services: Services) {
    forall a: Doc, b: Doc {:trigger services.dump(a), services.dump(b)} ::
      IsResult(a) && IsResult(b) && services.dump(a) == services.dump(b) ==> a == b
  }

  /** This reply to a command succeeds with this answer. */
  predicate Says(services: Services, reply: Option<Message>, command: Byte, result: string, success: bool) {
    reply == OkReply(services, command, ResultDoc(result, success))
  }

  lemma RepliesDiffer(services: Services, command: Byte, a: Doc, b: Doc)
    requires Separates(services) && IsResult(a) && IsResult(b)
    ensures OkReply(services, command, a) == OkReply(services, command, b) <==> a == b
  {
    var one, two := OkReply(services, command, a), OkReply(services, command, b);
    assert one.value.data == services.dump(a) && two.value.data == services.dump(b);
  }

  /** What the answer to a creation means. */
  lemma ResultMeans(m: Manager, imsi: Imsi, now: Instant)
    ensures var (m', result) := Create(m, imsi, now); var doc := CreationDoc(result);
            && IsResult(doc)
            && (doc == ResultDoc("created", true) <==> imsi !in m.sessions && imsi in m'.sessions)
            && (doc == ResultDoc("exists", false) <==> !m.draining && imsi !in m.blacklist && imsi in m.sessions)
            && (doc == ResultDoc("rejected", false) <==> !m.draining && imsi in m.blacklist)
            && (doc == ResultDoc("error", false) <==> m.draining)
            && m'.sessions.Keys == m.sessions.Keys + if doc == ResultDoc("created", true) then {imsi} else {}
  {
  }

  /** What a client reads off the reply to START_SESSION (4) is true: "created" iff there
      was no such session and now there is, "exists" iff there was one and the server
      would have made one, "rejected" iff the server was not draining and the IMSI is
      blacklisted, "error" iff it was draining; and nobody else came or went. */
  lemma StartReplyIsTrue(services: Services, junk: Byte, s: HState, request: Message, imsi: Imsi)
    requires request.header.command == 4 && services.parse(request.data).imsi == Text(imsi)
    requires IsValidImsi(imsi) && Separates(services)
    ensures var (s', reply) := Handle(services, junk, s, request);
            var was, now := s.mgr.sessions.Keys, s'.mgr.sessions.Keys;
            && (Says(services, reply, 4, "created", true) <==> imsi !in was && imsi in now)
            && (Says(services, reply, 4, "exists", false)
                <==> !s.mgr.draining && imsi !in s.mgr.blacklist && imsi in was)
            && (Says(services, reply, 4, "rejected", false) <==> !s.mgr.draining && imsi in s.mgr.blacklist)
            && (Says(services, reply, 4, "error", false) <==> s.mgr.draining)
            && now == was + if Says(services, reply, 4, "created", true) then {imsi} else {}
  {
    var doc := CreationDoc(Create(s.mgr, imsi, s.world.clock).1);
    ResultMeans(s.mgr, imsi, s.world.clock);
    assert Handle(services, junk, s, request) == StartSession(services, s, services.parse(request.data));
    assert StartSession(services, s, services.parse(request.data))
        == (s.(mgr := Create(s.mgr, imsi, s.world.clock).0), OkReply(services, START_SESSION, doc));
    RepliesDiffer(services, 4, doc, ResultDoc("created", true));
    RepliesDiffer(services, 4, doc, ResultDoc("exists", false));
    RepliesDiffer(services, 4, doc, ResultDoc("rejected", false));
    RepliesDiffer(services, 4, doc, ResultDoc("error", false));
  }

  /** And so is the reply to STOP_SESSION (5): "deleted" iff the session was there and now
      is not, "not_found" iff it was not; no other session goes, and the removal is
      recorded and counted. */
  lemma StopReplyIsTrue(services: Services, junk: Byte, s: HState, request: Message, imsi: Imsi)
    requires request.header.command == 5 && services.parse(request.data).imsi == Text(imsi)
    requires IsValidImsi(imsi) && Separates(services)
    ensures var (s', reply) := Handle(services, junk, s, request);
            var was, now := s.mgr.sessions.Keys, s'.mgr.sessions.Keys;
            && (Says(services, reply, 5, "deleted", true) <==> imsi in was && imsi !in now)
            && (Says(services, reply, 5, "not_found", false) <==> imsi !in was)
            && now == was - {imsi}
            && if imsi in was then Recorded(s.mgr, s'.mgr, Cdr(imsi, DELETED), 0, 0, 0, 1) else s'.mgr == s.mgr
  {
    TerminationMeans(s.mgr, imsi);
    var (m, removed) := Terminate(s.mgr, imsi);
    assert Handle(services, junk, s, request) == StopSession(services, s, services.parse(request.data));
    assert StopSession(services, s, services.parse(request.data))
        == (s.(mgr := m), OkReply(services, STOP_SESSION, RemovalDoc(removed)));
    RepliesDiffer(services, 5, RemovalDoc(removed), ResultDoc("deleted", true));
    RepliesDiffer(services, 5, RemovalDoc(removed), ResultDoc("not_found", false));
  }

  /** The operations of the manager that a request asks for. */
  function Demands(services: Services, s: HState, request: Message): seq<Op> {
    var p, command := services.parse(request.data).imsi, request.header.command;
    if p.NotText? || !IsValidImsi(p.value) then []
    else if command == START_SESSION then [CreateOp(p.value, s.world.clock)]
    else if command == STOP_SESSION then [TerminateOp(p.value)]
    else []
  }

  lemma StartMeans(services: Services, s: HState, request: Message)
    requires request.header.command == START_SESSION
    ensures var s' := StartSession(services, s, services.parse(request.data)).0;
            s' == s.(mgr := Sessions.ApplyAll(s.mgr, Demands(services, s, request)))
  {
    var p := services.parse(request.data).imsi;
    OneOpRun(s.mgr, CreateOp(if p.Text? then p.value else "", s.world.clock));
  }

  lemma StopMeans(services: Services, s: HState, request: Message)
    requires request.header.command == STOP_SESSION
    ensures var s' := StopSession(services, s, services.parse(request.data)).0;
            s' == s.(mgr := Sessions.ApplyAll(s.mgr, Demands(services, s, request)))
  {
    var p := services.parse(request.data).imsi;
    OneOpRun(s.mgr, TerminateOp(if p.Text? then p.value else ""));
  }

  /** A request does to the manager what it asks for and nothing else, and it raises
      the shutdown flag iff it is SHUTDOWN or the flag was up. */
  lemma RequestMeans(services: Services, junk: Byte, s: HState, request: Message)
    ensures var s' := Handle(services, junk, s, request).0;
            && s'.mgr == Sessions.ApplyAll(s.mgr, Demands(services, s, request)) && s'.world == s.world
            && (s'.request <==> s.request || request.header.command == SHUTDOWN)
  {
    if request.header.command == START_SESSION {
      StartMeans(services, s, request);
    } else if request.header.command == STOP_SESSION {
      StopMeans(services, s, request);
    }
  }

  predicate HasShutdown(work: seq<Work>) {
    exists w :: w in work && w.request.header.command == 6
  }

  /** Serving a client raises the shutdown flag iff it handles a SHUTDOWN (6). */
  lemma {:induction false} ShutdownRaises(services: Services, s: HState, buffer: Bytes)
    ensures var d := Drive(Stepper(services), s, buffer); d.state.request <==> s.request || HasShutdown(d.work)
    decreases |buffer|
  {
    match Deserializer(buffer)
    case None =>
    case Some(m) =>
      var (s', outcome) := HandleAndSend(services, s, m);
      assert Stepper(services)(s, m) == (s', outcome);
      var (w, t) := Next(s.world);
      RequestMeans(services, t.junk, s.(world := w), m);
      var all := Drive(Stepper(services), s, buffer).work;
      assert all[0] in all && all[0].request == m;
      if outcome.Answered? {
        var tail := buffer[Consumed(m)..];
        ShutdownRaises(services, s', tail);
        assert forall v :: v in all <==> v == all[0] || v in Drive(Stepper(services), s', tail).work;
      } else {
        assert all == [all[0]];
      }
  }

  /** There is no reply only to a START_SESSION (4) or STOP_SESSION (5) whose IMSI is no
      text. Any other carries the command of its request, and a status that tells an
      unknown command (3), a missing CDR writer (2) and an invalid IMSI (4) from success
      (1); those have no body. */
  lemma ReplyIsMarked(services: Services, junk: Byte, s: HState, request: Message)
    ensures var reply := Handle(services, junk, s, request).1;
            var command := request.header.command; var p := services.parse(request.data).imsi;
            var aboutSession := command == 4 || command == 5;
            && (reply == None <==> aboutSession && p.NotText?)
            && (reply.Some? ==>
                  var m := reply.value; var status := m.header.status;
                  && m.header.command == command && (1 <= command <= 6 ==> m.header.version == 1)
                  && (status == 3 <==> !(1 <= command <= 6))
                  && (status == 2 <==> command == 3 && !services.hasCdrWriter)
                  && (status == 4 <==> aboutSession && !IsValidImsi(p.value))
                  && 1 <= status <= 4 && (status == 1 || m.data == []))
            && (command == 6 ==> reply == OkReply(services, 6, MessageDoc))
  {
  }

  /** GET_STATS tells the counts of the log. */
  lemma StatsReplyIsTrue(services: Services, junk: Byte, s: HState, request: Message)
    requires request.header.command == 1 && Inv(s.mgr)
    ensures exists st: Statistics ::
              && Handle(services, junk, s, request).1 == OkReply(services, GET_STATS, StatsDoc(st))
              && st.active == |Replay(s.mgr.log)|
              && st.created == Count(s.mgr.log, CREATED) && st.rejected == Count(s.mgr.log, REJECTED)
              && st.total == st.created + st.rejected
              && st.expired == s.mgr.stats.expired && st.terminated == s.mgr.stats.terminated
              && st.expired + st.terminated == Count(s.mgr.log, DELETED)
  {
    assert |s.mgr.sessions| == |s.mgr.sessions.Keys|;
    var st := s.mgr.stats.(active := |s.mgr.sessions|);
    assert Handle(services, junk, s, request).1 == OkReply(services, GET_STATS, StatsDoc(st));
  }

  /** GET_SESSIONS tells the active sessions and their ages in seconds completed. */
  lemma SessionsReplyIsTrue(services: Services, junk: Byte, s: HState, request: Message)
    requires request.header.command == 2 && Inv(s.mgr) && Past(s.mgr, s.world.clock)
    ensures exists ages: map<Imsi, int> ::
              && Handle(services, junk, s, request).1 == OkReply(services, GET_SESSIONS, SessionsDoc(ages))
              && ages.Keys == Replay(s.mgr.log)
              && forall k :: k in ages ==>
                   0 <= ages[k] * SECOND <= s.world.clock - s.mgr.sessions[k] < (ages[k] + 1) * SECOND
  {
    var ages := Ages(s.mgr.sessions, s.world.clock);
    assert Handle(services, junk, s, request).1 == OkReply(services, GET_SESSIONS, SessionsDoc(ages));
    assert ages.Keys == s.mgr.sessions.Keys;
  }

  /** A request is answered iff it has a reply and the send succeeds. */
  lemma AnsweredExactly(services: Services, s: HState, request: Message)
    ensures var (w, t) := Next(s.world); var (s', outcome) := HandleAndSend(services, s, request);
            var (s'', reply) := Handle(services, t.junk, s.(world := w), request);
            s' == s'' && (outcome.Answered? <==> reply.Some? && t.sendOk)
            && (outcome.Answered? ==> Some(outcome.reply) == reply)
  {
  }

  predicate KnownCommand(command: Byte) {
    GET_STATS <= command <= SHUTDOWN
  }

  lemma ReplyWellFormedExactly(services: Services, junk: Byte, s: HState, request: Message)
    requires Handle(services, junk, s, request).1.Some?
    ensures var reply := Handle(services, junk, s, request).1.value;
            WellFormed(reply)
            <==> (if KnownCommand(request.header.command) then |reply.data| < 0x1_0000_0000
                  else junk == PROTOCOL_VERSION)
  {
  }

  /** A reply can be read back by the client's decoder iff it answers a known
      command with a body of less than 4 GiB, or the unset version byte of an
      unknown-command reply happens to be the protocol version. */
  lemma ReplyReadableExactly(services: Services, junk: Byte, s: HState, request: Message, reply: Message)
    requires Handle(services, junk, s, request).1 == Some(reply)
    ensures Deserializer(Serializer(reply)) == Some(reply)
            <==> (if KnownCommand(request.header.command) then |reply.data| < 0x1_0000_0000
                  else junk == PROTOCOL_VERSION)
  {
    ReplyWellFormedExactly(services, junk, s, request);
    RoundTripExactly(reply);
  }

  /** One reply to an unknown command whose unset version byte is not the protocol
      version blocks every reader that parses as the server does: the replies
      before it arrive, nothing after it ever does. */
  lemma UnknownReplySticks(junk: Byte, command: Byte, earlier: seq<Message>, more: Bytes)
    requires junk != PROTOCOL_VERSION
    requires forall i :: 0 <= i < |earlier| ==> WellFormed(earlier[i])
    ensures var tail := Serializer(UnknownReply(junk, command)) + more;
            Parse(EncodeAll(earlier) + tail) == (earlier, tail)
  {
    ForeignHeadSticks(earlier, Serializer(UnknownReply(junk, command)) + more);
  }

  /** One request leads to at most one operation of the manager. */
  lemma HandleTouches(services: Services, junk: Byte, s: HState, request: Message)
    ensures var s' := Handle(services, junk, s, request).0; var p := services.parse(request.data).imsi;
            && s'.world == s.world
            && (s'.request <==> s.request || request.header.command == SHUTDOWN)
            && (s'.mgr == s.mgr
                || (p.Text? && IsValidImsi(p.value) && s'.mgr == Create(s.mgr, p.value, s.world.clock).0)
                || (p.Text? && s'.mgr == Terminate(s.mgr, p.value).0))
  {
  }

  /** Handling a request is something the manager may undergo, and only SHUTDOWN
      raises the request flag. */
  lemma HandleEvolves(services: Services, s: HState, request: Message)
    ensures var s' := HandleAndSend(services, s, request).0;
            && s.world.clock <= s'.world.clock
            && Evolves(s.mgr, s'.mgr, s.world.clock, s'.world.clock)
            && (s'.request <==> s.request || request.header.command == SHUTDOWN)
  {
    var (w, t) := Next(s.world);
    HandleTouches(services, t.junk, s.(world := w), request);
    var p := services.parse(request.data).imsi;
    var m' := HandleAndSend(services, s, request).0.mgr;
    if m' == s.mgr {
      EvolvesStay(s.mgr, s.world.clock, w.clock);
    } else if m' == Create(s.mgr, p.value, w.clock).0 {
      CreateEvolves(s.mgr, p.value, w.clock, s.world.clock, w.clock);
    } else {
      TerminateEvolves(s.mgr, p.value, s.world.clock, w.clock);
    }
  }

  lemma {:induction false} DriveEvolves(services: Services, s: HState, buffer: Bytes)
    ensures var s' := Drive(Stepper(services), s, buffer).state;
            && s.world.clock <= s'.world.clock
            && Evolves(s.mgr, s'.mgr, s.world.clock, s'.world.clock)
            && (s.request ==> s'.request)
    decreases |buffer|
  {
    match Deserializer(buffer)
    case None => EvolvesStay(s.mgr, s.world.clock, s.world.clock);
    case Some(m) =>
      var (s', outcome) := HandleAndSend(services, s, m);
      assert Stepper(services)(s, m) == (s', outcome);
      HandleEvolves(services, s, m);
      if outcome.Answered? {
        var tail := buffer[Consumed(m)..];
        DriveEvolves(services, s', tail);
        var s'' := Drive(Stepper(services), s', tail).state;
        EvolvesTrans(s.mgr, s'.mgr, s''.mgr, s.world.clock, s'.world.clock, s''.world.clock);
      }
  }

  // ----- The handler -----

  class TcpHandler {
    const services: Services
    const manager: SessionManager
    const shutdownRequest: Flag

    constructor (services: Services, manager: SessionManager, shutdownRequest: Flag)
      ensures this.services == services && this.manager == manager && this.shutdownRequest == shutdownRequest
    {
      this.services, this.manager, this.shutdownRequest := services, manager, shutdownRequest;
    }

    function State(w: World): HState
      reads manager, shutdownRequest
    {
      HState(manager.Snapshot(), shutdownRequest.raised, w)
    }

    method HandleStartSession(p: Params, w: World) returns (response: Option<Message>)
      modifies manager
      ensures (State(w), response) == StartSession(services, old(State(w)), p)
    {
      if p.imsi.NotText? { return None; }
      var imsi := p.imsi.value;
      if imsi == "" || !IsValidImsi(imsi) {
        return Some(CreateJsonMsg(START_SESSION, STATUS_INVALID_PARAMS, None));
      }
      var result := manager.CreateSession(imsi, w.clock);
      response := OkReply(services, START_SESSION, CreationDoc(result));
    }

    method HandleStopSession(p: Params, w: World) returns (response: Option<Message>)
      modifies manager
      ensures (State(w), response) == StopSession(services, old(State(w)), p)
    {
      if p.imsi.NotText? { return None; }
      var imsi := p.imsi.value;
      if imsi == "" || !IsValidImsi(imsi) {
        return Some(CreateJsonMsg(STOP_SESSION, STATUS_INVALID_PARAMS, None));
      }
      var removed := manager.TerminateSession(imsi);
      response := OkReply(services, STOP_SESSION, RemovalDoc(removed));
    }

    method HandleRequest(request: Message, junk: Byte, w: World) returns (response: Option<Message>)
      modifies manager, shutdownRequest
      ensures (State(w), response) == Handle(services, junk, old(State(w)), request)
    {
      var command := request.header.command;
      if command == GET_STATS {
        var stats := manager.GetStatistics();
        response := OkReply(services, GET_STATS, StatsDoc(stats));
      } else if command == GET_SESSIONS {
        response := OkReply(services, GET_SESSIONS, SessionsDoc(Ages(manager.sessions, w.clock)));
      } else if command == GET_CDR {
        var params := services.parse(request.data);
        if !services.hasCdrWriter { return Some(CreateJsonMsg(GET_CDR, STATUS_ERROR, None)); }
        var limit := READ_CDR_LIMIT;
        if params.limit.Some? { limit := params.limit.value; }
        response := OkReply(services, GET_CDR, CdrDoc(limit, Recent(manager.cdr, limit)));
      } else if command == START_SESSION {
        response := HandleStartSession(services.parse(request.data), w);
      } else if command == STOP_SESSION {
        response := HandleStopSession(services.parse(request.data), w);
      } else if command == SHUTDOWN {
        shutdownRequest.Raise();
        response := OkReply(services, SHUTDOWN, MessageDoc);
      } else {
        response := Some(UnknownReply(junk, command));
      }
    }
  }
}
