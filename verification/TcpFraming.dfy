/** Reassembly of a client's byte stream, for any deterministic stateful
    handler, and the table of clients that share the handler. */
module TcpFraming {
  import opened Protocol
  import opened TcpSerializer

  /** What handling one message and sending its reply comes to. `Failed` stands
      for an exception out of the handler or out of the send. */
  datatype Outcome = Answered(reply: Message) | Failed

  /** One handled message and the bytes sent back for it, if any. */
  datatype Work = Work(request: Message, reply: Option<Bytes>)

  // ----- One client -----

  /** The handler state, the work done, and either the leftover bytes of a live
      client or a client that was dropped. */
  datatype Driven<S> = Driven(state: S, work: seq<Work>, alive: bool, rest: Bytes)

  function Drive<S>(h: (S, Message) -> (S, Outcome), s: S, buffer: Bytes): Driven<S>
    decreases |buffer|
  {
    match Deserializer(buffer)
    case None => Driven(s, [], true, buffer)
    case Some(m) =>
      var (s', outcome) := h(s, m);
      match outcome
      case Failed => Driven(s', [Work(m, None)], false, [])
      case Answered(reply) =>
        var d := Drive(h, s', buffer[Consumed(m)..]);
        d.(work := [Work(m, Some(Serializer(reply)))] + d.work)
  }

  /** The next chunk of the stream; a dropped client receives nothing. */
  function Feed<S>(h: (S, Message) -> (S, Outcome), d: Driven<S>, chunk: Bytes): Driven<S> {
    if !d.alive then d
    else
      var e := Drive(h, d.state, d.rest + chunk);
      e.(work := d.work + e.work)
  }

  function FeedAll<S>(h: (S, Message) -> (S, Outcome), d: Driven<S>, chunks: seq<Bytes>): Driven<S>
    decreases |chunks|
  {
    if chunks == [] then d else FeedAll(h, Feed(h, d, chunks[0]), chunks[1..])
  }

  function Concat(chunks: seq<Bytes>): Bytes {
    if chunks == [] then [] else chunks[0] + Concat(chunks[1..])
  }

  lemma ConcatCons(a: Bytes, chunks: seq<Bytes>)
    requires chunks != []
    ensures a + Concat(chunks) == a + chunks[0] + Concat(chunks[1..])
  {
  }

  function Requests(work: seq<Work>): seq<Message> {
    seq(|work|, i requires 0 <= i < |work| => work[i].request)
  }

  /** Work done before does not change what the next chunk leads to. */
  lemma FeedAfter<S>(h: (S, Message) -> (S, Outcome), d: Driven<S>, first: seq<Work>, chunk: Bytes)
    ensures Feed(h, d.(work := first + d.work), chunk)
            == Feed(h, d, chunk).(work := first + Feed(h, d, chunk).work)
  {
    var more := Drive(h, d.state, d.rest + chunk).work;
    assert first + d.work + more == first + (d.work + more);
  }

  lemma {:induction false} DriveInPieces<S>(h: (S, Message) -> (S, Outcome), s: S, a: Bytes, b: Bytes)
    ensures Drive(h, s, a + b) == Feed(h, Drive(h, s, a), b)
    decreases |a|
  {
    match Deserializer(a)
    case None =>
    case Some(m) =>
      HeadComesFirst(a, b);
      var tail := a[Consumed(m)..];
      var (s', outcome) := h(s, m);
      match outcome
      case Failed =>
      case Answered(reply) =>
        DriveInPieces(h, s', tail, b);
        FeedAfter(h, Drive(h, s', tail), [Work(m, Some(Serializer(reply)))], b);
  }

  lemma {:induction false} FeedAllContinues<S>(h: (S, Message) -> (S, Outcome), s: S, a: Bytes, chunks: seq<Bytes>)
    ensures FeedAll(h, Drive(h, s, a), chunks) == Drive(h, s, a + Concat(chunks))
    decreases |chunks|
  {
    if chunks == [] {
      assert a + Concat(chunks) == a;
    } else {
      ConcatCons(a, chunks);
      calc {
        FeedAll(h, Drive(h, s, a), chunks);
        { DriveInPieces(h, s, a, chunks[0]); }
        FeedAll(h, Drive(h, s, a + chunks[0]), chunks[1..]);
        { FeedAllContinues(h, s, a + chunks[0], chunks[1..]); }
        Drive(h, s, a + chunks[0] + Concat(chunks[1..]));
      }
    }
  }

  /** Independence from fragmentation: any split of a byte stream into chunks
      has the effect of one greedy pass over the whole stream, including streams
      that stick and handlers that throw on the way. */
  lemma FragmentationIndependence<S>(h: (S, Message) -> (S, Outcome), s: S, chunks: seq<Bytes>)
    ensures FeedAll(h, Driven(s, [], true, []), chunks) == Drive(h, s, Concat(chunks))
  {
    FeedAllContinues(h, s, [], chunks);
    assert [] + Concat(chunks) == Concat(chunks);
  }

  lemma RequestsCons(w: Work, work: seq<Work>)
    ensures Requests([w] + work) == [w.request] + Requests(work)
  {
  }

  /** The messages handled are the greedy parse of the stream: all of it while
      the client lives, and otherwise the part up to the message that failed. */
  lemma {:induction false} DriveFollowsParse<S>(h: (S, Message) -> (S, Outcome), s: S, buffer: Bytes)
    ensures var d := Drive(h, s, buffer); var (ms, rest) := Parse(buffer);
            && (d.alive ==> Requests(d.work) == ms && d.rest == rest)
            && Requests(d.work) <= ms
    decreases |buffer|
  {
    match Deserializer(buffer)
    case None =>
    case Some(m) =>
      var (s', outcome) := h(s, m);
      if outcome.Answered? {
        var tail := buffer[Consumed(m)..];
        DriveFollowsParse(h, s', tail);
        RequestsCons(Drive(h, s, buffer).work[0], Drive(h, s', tail).work);
      }
  }

  /** Every handled message got its reply, except a last one that failed; and a
      failure is what drops a client. */
  lemma {:induction false} EveryRequestAnswered<S>(h: (S, Message) -> (S, Outcome), s: S, buffer: Bytes)
    ensures var d := Drive(h, s, buffer);
            && (d.alive <==> forall w :: w in d.work ==> w.reply.Some?)
            && forall i :: 0 <= i < |d.work| - 1 ==> d.work[i].reply.Some?
    decreases |buffer|
  {
    match Deserializer(buffer)
    case None =>
    case Some(m) =>
      var (s', outcome) := h(s, m);
      match outcome
      case Failed => assert Work(m, None) in Drive(h, s, buffer).work;
      case Answered(reply) =>
        EveryRequestAnswered(h, s', buffer[Consumed(m)..]);
        var tail := Drive(h, s', buffer[Consumed(m)..]);
        var all := Drive(h, s, buffer).work;
        assert forall w :: w in all <==> w == Work(m, Some(Serializer(reply))) || w in tail.work;
        assert forall i :: 1 <= i < |all| ==> all[i] == tail.work[i - 1];
  }

  /** The handler's state after these requests one after another. */
  function HandledAll<S>(h: (S, Message) -> (S, Outcome), s: S, ms: seq<Message>): S {
    if ms == [] then s else h(HandledAll(h, s, ms[..|ms| - 1]), ms[|ms| - 1]).0
  }

  lemma {:induction false} HandledCons<S>(h: (S, Message) -> (S, Outcome), s: S, m: Message, ms: seq<Message>)
    ensures HandledAll(h, s, [m] + ms) == HandledAll(h, h(s, m).0, ms)
  {
    if ms == [] {
      assert [m] + ms == [m] && [m][..0] == [];
    } else {
      assert ([m] + ms)[..|ms|] == [m] + ms[..|ms| - 1];
      HandledCons(h, s, m, ms[..|ms| - 1]);
    }
  }

  /** What handling one request in this state puts down. */
  function WorkFor<S>(h: (S, Message) -> (S, Outcome), s: S, m: Message): Work {
    match h(s, m).1
    case Answered(reply) => Work(m, Some(Serializer(reply)))
    case Failed => Work(m, None)
  }

  /** Each request got the handler's reply in the state that those before it left. */
  ghost predicate AnsweredInTurn<S>(h: (S, Message) -> (S, Outcome), s: S, work: seq<Work>) {
    forall i :: 0 <= i < |work| ==>
      work[i] == WorkFor(h, HandledAll(h, s, Requests(work[..i])), work[i].request)
  }

  lemma AnsweredCons<S>(h: (S, Message) -> (S, Outcome), s: S, m: Message, work: seq<Work>)
    requires AnsweredInTurn(h, h(s, m).0, work)
    ensures var all := [WorkFor(h, s, m)] + work;
            AnsweredInTurn(h, s, all) && HandledAll(h, s, Requests(all)) == HandledAll(h, h(s, m).0, Requests(work))
  {
    var all := [WorkFor(h, s, m)] + work;
    assert Requests(all) == [m] + Requests(work);
    HandledCons(h, s, m, Requests(work));
    forall i | 1 <= i < |all|
      ensures HandledAll(h, s, Requests(all[..i])) == HandledAll(h, h(s, m).0, Requests(work[..i - 1]))
    {
      assert Requests(all[..i]) == [m] + Requests(work[..i - 1]);
      HandledCons(h, s, m, Requests(work[..i - 1]));
    }
  }

  /** Serving a buffer handles its requests one after another: each gets the reply to
      it in the state that those before it left, and the state at the end is the one
      all of them left. */
  lemma {:induction false} DriveIsHandling<S>(h: (S, Message) -> (S, Outcome), s: S, buffer: Bytes)
    ensures var d := Drive(h, s, buffer);
            AnsweredInTurn(h, s, d.work) && d.state == HandledAll(h, s, Requests(d.work))
    decreases |buffer|
  {
    match Deserializer(buffer)
    case None =>
    case Some(m) =>
      match h(s, m).1 {
        case Failed =>
          AnsweredCons(h, s, m, []);
          assert [WorkFor(h, s, m)] + [] == [Work(m, None)];
        case Answered(reply) =>
          DriveIsHandling(h, h(s, m).0, buffer[Consumed(m)..]);
          AnsweredCons(h, s, m, Drive(h, h(s, m).0, buffer[Consumed(m)..]).work);
      }
  }

  // ----- Many clients -----

  /** What the server has done, in order. */
  datatype Entry = Accepted(fd: int) | Received(fd: int, chunk: Bytes) | Handled(fd: int, work: Work)

  /** The client table: each live descriptor with its read buffer. */
  datatype Tcp<S> = Tcp(running: bool, stopAccepting: bool, clients: map<int, Bytes>, state: S, journal: seq<Entry>)

  datatype Incoming = NewSocket(fd: int) | NoConnection | AcceptFailed

  /** The result of a receive: data, or none with the peer alive or gone, or an
      exception. */
  datatype Packet = Packet(data: Bytes, peerClosed: bool) | ReceiveFailed

  datatype Input<S> =
    | Accept(incoming: Incoming)
    | Data(fd: int, packet: Packet)
    | StopAccepting
    | Stop
    | Elsewhere(state: S)  // the handler's state changed by someone else

  /** The new descriptor, -1, or nothing when an exception escapes: nobody catches
      one that comes while connections are being refused. */
  function AcceptNewClient<S>(t: Tcp<S>, incoming: Incoming): (Tcp<S>, Option<int>) {
    if !t.running then (t, Some(-1))
    else if t.stopAccepting then (t, if incoming.AcceptFailed? then None else Some(-1))
    else
      match incoming
      case NewSocket(fd) =>
        (t.(clients := t.clients[fd := []], journal := t.journal + [Accepted(fd)]), Some(fd))
      case _ => (t, Some(-1))
  }

  function RemoveClient<S>(t: Tcp<S>, fd: int): Tcp<S> {
    t.(clients := t.clients - {fd})
  }

  function Entries(fd: int, work: seq<Work>): seq<Entry> {
    seq(|work|, i requires 0 <= i < |work| => Handled(fd, work[i]))
  }

  /** Data joins the client's buffer. */
  function Receive<S>(t: Tcp<S>, fd: int, data: Bytes): Tcp<S>
    requires fd in t.clients
  {
    t.(clients := t.clients[fd := t.clients[fd] + data], journal := t.journal + [Received(fd, data)])
  }

  /** Every complete message in the client's buffer is served; false says the
      client was dropped on the way. */
  function Serve<S>(h: (S, Message) -> (S, Outcome), t: Tcp<S>, fd: int): (Tcp<S>, bool)
    requires fd in t.clients
  {
    var d := Drive(h, t.state, t.clients[fd]);
    (t.(state := d.state,
        journal := t.journal + Entries(fd, d.work),
        clients := if d.alive then t.clients[fd := d.rest] else t.clients - {fd}), d.alive)
  }

  function HandleClientData<S>(h: (S, Message) -> (S, Outcome), t: Tcp<S>, fd: int, packet: Packet): (Tcp<S>, bool) {
    if fd !in t.clients then (t, false)
    else if packet.ReceiveFailed? then (RemoveClient(t, fd), false)
    else if packet.data == [] then (if packet.peerClosed then RemoveClient(t, fd) else t, false)
    else Serve(h, Receive(t, fd, packet.data), fd)
  }

  function StopServer<S>(t: Tcp<S>): Tcp<S> {
    if t.running then t.(running := false, clients := map[]) else t
  }

  function Apply<S>(h: (S, Message) -> (S, Outcome), t: Tcp<S>, input: Input<S>): Tcp<S> {
    match input
    case Accept(incoming) => AcceptNewClient(t, incoming).0
    case Data(fd, packet) => HandleClientData(h, t, fd, packet).0
    case StopAccepting => t.(stopAccepting := true)
    case Stop => StopServer(t)
    case Elsewhere(s) => t.(state := s)
  }

  function ApplyAll<S>(h: (S, Message) -> (S, Outcome), t: Tcp<S>, inputs: seq<Input<S>>): Tcp<S>
    decreases |inputs|
  {
    if inputs == [] then t else ApplyAll(h, Apply(h, t, inputs[0]), inputs[1..])
  }

  /** One turn of the serving loop: the message is handled, its reply sent, its
      bytes erased, or else the client is dropped. */
  function ServeOne<S>(h: (S, Message) -> (S, Outcome), t: Tcp<S>, fd: int, m: Message): (Tcp<S>, bool)
    requires fd in t.clients && Consumed(m) <= |t.clients[fd]|
  {
    var (s, outcome) := h(t.state, m);
    match outcome
    case Failed =>
      (RemoveClient(t.(state := s, journal := t.journal + [Handled(fd, Work(m, None))]), fd), false)
    case Answered(reply) =>
      (t.(state := s,
          journal := t.journal + [Handled(fd, Work(m, Some(Serializer(reply))))],
          clients := t.clients[fd := t.clients[fd][Consumed(m)..]]), true)
  }

  lemma EntriesCons(fd: int, w: Work, work: seq<Work>)
    ensures Entries(fd, [w] + work) == [Handled(fd, w)] + Entries(fd, work)
  {
  }

  /** Serving is taking turns until no complete message is left. */
  lemma ServeByTurns<S>(h: (S, Message) -> (S, Outcome), t: Tcp<S>, fd: int)
    requires fd in t.clients
    ensures match Deserializer(t.clients[fd])
            case None => Serve(h, t, fd) == (t, true)
            case Some(m) =>
              var (t', ok) := ServeOne(h, t, fd, m);
              Serve(h, t, fd) == if ok then Serve(h, t', fd) else (t', false)
  {
    match Deserializer(t.clients[fd])
    case None =>
      assert t.clients[fd := t.clients[fd]] == t.clients;
      assert t.journal + Entries(fd, []) == t.journal;
    case Some(m) =>
      var (s, outcome) := h(t.state, m);
      match outcome
      case Failed =>
        assert Entries(fd, [Work(m, None)]) == [Handled(fd, Work(m, None))];
      case Answered(reply) =>
        var w := Work(m, Some(Serializer(reply)));
        var d := Drive(h, s, t.clients[fd][Consumed(m)..]);
        EntriesCons(fd, w, d.work);
        assert t.journal + ([Handled(fd, w)] + Entries(fd, d.work))
            == t.journal + [Handled(fd, w)] + Entries(fd, d.work);
        var clients := t.clients[fd := t.clients[fd][Consumed(m)..]];
        assert clients[fd := d.rest] == t.clients[fd := d.rest];
        assert clients - {fd} == t.clients - {fd};
  }

  function AddBytes(past: Bytes, e: Entry, fd: int): Bytes {
    match e
    case Accepted(f) => if f == fd then [] else past
    case Received(f, chunk) => if f == fd then past + chunk else past
    case Handled(_, _) => past
  }

  function AddRequests(past: seq<Message>, e: Entry, fd: int): seq<Message> {
    match e
    case Accepted(f) => if f == fd then [] else past
    case Received(_, _) => past
    case Handled(f, work) => if f == fd then past + [work.request] else past
  }

  /** The bytes received on a descriptor since it was last accepted. */
  function BytesOf(journal: seq<Entry>, fd: int): Bytes {
    if journal == [] then []
    else AddBytes(BytesOf(journal[..|journal| - 1], fd), journal[|journal| - 1], fd)
  }

  /** The messages handled for a descriptor since it was last accepted. */
  function RequestsOf(journal: seq<Entry>, fd: int): seq<Message> {
    if journal == [] then []
    else AddRequests(RequestsOf(journal[..|journal| - 1], fd), journal[|journal| - 1], fd)
  }

  /** Each live client has been served exactly the greedy parse of its own bytes
      and holds exactly its own leftover; a former client was served a prefix. */
  ghost predicate Served(journal: seq<Entry>, clients: map<int, Bytes>) {
    forall fd: int {:trigger BytesOf(journal, fd)} {:trigger RequestsOf(journal, fd)} ::
      && RequestsOf(journal, fd) <= Parse(BytesOf(journal, fd)).0
      && (fd in clients ==> Parse(BytesOf(journal, fd)) == (RequestsOf(journal, fd), clients[fd]))
  }

  ghost predicate OwnStreams<S>(t: Tcp<S>) {
    Served(t.journal, t.clients)
  }

  /** The work done for a descriptor, in order. */
  function WorkOf(journal: seq<Entry>, fd: int): seq<Work> {
    if journal == [] then []
    else
      var e := journal[|journal| - 1];
      WorkOf(journal[..|journal| - 1], fd) + if e.Handled? && e.fd == fd then [e.work] else []
  }

  lemma WorkSnoc(journal: seq<Entry>, e: Entry, fd: int)
    ensures WorkOf(journal + [e], fd) == WorkOf(journal, fd) + if e.Handled? && e.fd == fd then [e.work] else []
  {
    assert (journal + [e])[..|journal|] == journal;
  }

  /** Nothing has happened to this descriptor. */
  ghost predicate SamePast<S>(t: Tcp<S>, t': Tcp<S>, fd: int) {
    && BytesOf(t'.journal, fd) == BytesOf(t.journal, fd) && RequestsOf(t'.journal, fd) == RequestsOf(t.journal, fd)
    && WorkOf(t'.journal, fd) == WorkOf(t.journal, fd)
    && (fd in t'.clients <==> fd in t.clients) && (fd in t.clients ==> t'.clients[fd] == t.clients[fd])
  }

  lemma JournalSnoc(journal: seq<Entry>, e: Entry, fd: int)
    ensures BytesOf(journal + [e], fd) == AddBytes(BytesOf(journal, fd), e, fd)
    ensures RequestsOf(journal + [e], fd) == AddRequests(RequestsOf(journal, fd), e, fd)
  {
    assert (journal + [e])[..|journal|] == journal;
  }

  lemma WorkCut(journal: seq<Entry>, fd: int, before: seq<Work>, w: Work)
    ensures journal + Entries(fd, before + [w]) == journal + Entries(fd, before) + [Handled(fd, w)]
    ensures Requests(before + [w]) == Requests(before) + [w.request]
  {
  }

  lemma {:induction false} JournalWork(journal: seq<Entry>, fd: int, work: seq<Work>, other: int)
    ensures BytesOf(journal + Entries(fd, work), other) == BytesOf(journal, other)
    ensures RequestsOf(journal + Entries(fd, work), other)
            == RequestsOf(journal, other) + if other == fd then Requests(work) else []
  {
    if work == [] {
      assert journal + Entries(fd, work) == journal;
    } else {
      var before := work[..|work| - 1];
      var w := work[|work| - 1];
      JournalWork(journal, fd, before, other);
      JournalSnoc(journal + Entries(fd, before), Handled(fd, w), other);
      WorkCut(journal, fd, before, w);
      assert work == before + [w];
    }
  }

  lemma OwnStreamExtends<S>(h: (S, Message) -> (S, Outcome), s: S, bytes: Bytes, chunk: Bytes)
    ensures var (ms, rest) := Parse(bytes); var d := Drive(h, s, rest + chunk);
            && ms + Requests(d.work) <= Parse(bytes + chunk).0
            && (d.alive ==> Parse(bytes + chunk) == (ms + Requests(d.work), d.rest))
  {
    ParseInPieces(bytes, chunk);
    DriveFollowsParse(h, s, Parse(bytes).1 + chunk);
  }

  lemma DataJournal<S>(h: (S, Message) -> (S, Outcome), t: Tcp<S>, fd: int, chunk: Bytes, other: int)
    requires fd in t.clients && chunk != []
    ensures var d := Drive(h, t.state, t.clients[fd] + chunk);
            var t' := HandleClientData(h, t, fd, Packet(chunk, false)).0;
            && BytesOf(t'.journal, other) == BytesOf(t.journal, other) + (if other == fd then chunk else [])
            && RequestsOf(t'.journal, other)
               == RequestsOf(t.journal, other) + (if other == fd then Requests(d.work) else [])
  {
    var d := Drive(h, t.state, t.clients[fd] + chunk);
    JournalSnoc(t.journal, Received(fd, chunk), other);
    JournalWork(t.journal + [Received(fd, chunk)], fd, d.work, other);
  }

  lemma DataKeepsStreamOf<S>(h: (S, Message) -> (S, Outcome), t: Tcp<S>, fd: int, chunk: Bytes, other: int)
    requires OwnStreams(t) && fd in t.clients && chunk != []
    ensures var t' := HandleClientData(h, t, fd, Packet(chunk, false)).0;
            var bytes, requests := BytesOf(t'.journal, other), RequestsOf(t'.journal, other);
            requests <= Parse(bytes).0 && (other in t'.clients ==> Parse(bytes) == (requests, t'.clients[other]))
  {
    DataJournal(h, t, fd, chunk, other);
    var bytes := BytesOf(t.journal, other);
    if other == fd {
      OwnStreamExtends(h, t.state, bytes, chunk);
    } else {
      assert bytes + [] == bytes && RequestsOf(t.journal, other) + [] == RequestsOf(t.journal, other);
    }
  }

  lemma DataKeepsOwnStreams<S>(h: (S, Message) -> (S, Outcome), t: Tcp<S>, fd: int, chunk: Bytes)
    requires OwnStreams(t) && fd in t.clients && chunk != []
    ensures OwnStreams(HandleClientData(h, t, fd, Packet(chunk, false)).0)
  {
    var t' := HandleClientData(h, t, fd, Packet(chunk, false)).0;
    forall other: int
      ensures RequestsOf(t'.journal, other) <= Parse(BytesOf(t'.journal, other)).0
      ensures other in t'.clients ==>
                Parse(BytesOf(t'.journal, other)) == (RequestsOf(t'.journal, other), t'.clients[other])
    {
      DataKeepsStreamOf(h, t, fd, chunk, other);
    }
  }

  lemma StepKeepsOwnStreams<S>(h: (S, Message) -> (S, Outcome), t: Tcp<S>, input: Input<S>)
    requires OwnStreams(t)
    ensures OwnStreams(Apply(h, t, input))
  {
    match input
    case Accept(incoming) =>
      if incoming.NewSocket? {
        forall other: int { JournalSnoc(t.journal, Accepted(incoming.fd), other); }
      }
    case Data(fd, packet) =>
      if fd in t.clients && packet.Packet? && packet.data != [] {
        DataKeepsOwnStreams(h, t, fd, packet.data);
        assert HandleClientData(h, t, fd, packet) == HandleClientData(h, t, fd, Packet(packet.data, false));
      }
    case _ =>
  }

  /** Of a connection that comes in: a running server that has not stopped accepting
      puts it into its table with nothing received and nothing handled yet, touches
      nobody else and tells its descriptor; in any other case nothing changes, and an
      exception escapes iff one comes out of refusing. */
  lemma ConnectionMeans<S>(t: Tcp<S>, incoming: Incoming)
    ensures var (t', told) := AcceptNewClient(t, incoming);
            if t.running && !t.stopAccepting && incoming.NewSocket? then
              && told == Some(incoming.fd) && t'.clients == t.clients[incoming.fd := []]
              && BytesOf(t'.journal, incoming.fd) == [] && RequestsOf(t'.journal, incoming.fd) == []
              && (forall other :: other != incoming.fd ==> SamePast(t, t', other))
              && t'.running && !t'.stopAccepting && t'.state == t.state
            else t' == t && told == if t.running && t.stopAccepting && incoming.AcceptFailed? then None else Some(-1)
  {
    if t.running && !t.stopAccepting && incoming.NewSocket? {
      var fd := incoming.fd;
      JournalSnoc(t.journal, Accepted(fd), fd);
      forall other | other != fd ensures SamePast(t, AcceptNewClient(t, incoming).0, other) {
        JournalSnoc(t.journal, Accepted(fd), other);
        WorkSnoc(t.journal, Accepted(fd), other);
      }
    }
  }

  /** For any interleaving of accepts, removals, chunks of any clients, stops and
      outside changes of the handler's state, the messages handled for a
      descriptor are the greedy parse of that descriptor's own bytes. */
  lemma {:induction false} ClientsNeverMix<S>(h: (S, Message) -> (S, Outcome), t: Tcp<S>, inputs: seq<Input<S>>)
    requires OwnStreams(t)
    ensures OwnStreams(ApplyAll(h, t, inputs))
    decreases |inputs|
  {
    if inputs != [] {
      StepKeepsOwnStreams(h, t, inputs[0]);
      ClientsNeverMix(h, Apply(h, t, inputs[0]), inputs[1..]);
    }
  }

  // ----- One client's chunks at the server -----

  lemma {:induction false} WorkEntries(journal: seq<Entry>, fd: int, work: seq<Work>)
    ensures WorkOf(journal + Entries(fd, work), fd) == WorkOf(journal, fd) + work
  {
    if work == [] {
      assert journal + Entries(fd, work) == journal;
    } else {
      var init, last := work[..|work| - 1], work[|work| - 1];
      WorkEntries(journal, fd, init);
      WorkSnoc(journal + Entries(fd, init), Handled(fd, last), fd);
      assert journal + Entries(fd, work) == journal + Entries(fd, init) + [Handled(fd, last)];
    }
  }

  function DataInputs<S>(fd: int, chunks: seq<Bytes>): seq<Input<S>> {
    seq(|chunks|, i requires 0 <= i < |chunks| => Data(fd, Packet(chunks[i], false)))
  }

  /** What has become of a server when a client's stream has had this effect. */
  ghost predicate HasEffect<S>(t: Tcp<S>, t': Tcp<S>, fd: int, d: Driven<S>) {
    && t'.state == d.state
    && t'.clients == (if d.alive then t.clients[fd := d.rest] else t.clients - {fd})
    && WorkOf(t'.journal, fd) == WorkOf(t.journal, fd) + d.work
  }

  lemma DataEffect<S>(h: (S, Message) -> (S, Outcome), t: Tcp<S>, fd: int, chunk: Bytes)
    requires fd in t.clients && chunk != []
    ensures HasEffect(t, HandleClientData(h, t, fd, Packet(chunk, false)).0, fd,
                      Drive(h, t.state, t.clients[fd] + chunk))
  {
    var d := Drive(h, t.state, t.clients[fd] + chunk);
    WorkSnoc(t.journal, Received(fd, chunk), fd);
    WorkEntries(t.journal + [Received(fd, chunk)], fd, d.work);
    assert WorkOf(t.journal, fd) + [] == WorkOf(t.journal, fd);
    var mid := t.clients[fd := t.clients[fd] + chunk];
    assert mid[fd := d.rest] == t.clients[fd := d.rest] && mid - {fd} == t.clients - {fd};
  }

  lemma {:induction false} WorkElsewhere(journal: seq<Entry>, fd: int, work: seq<Work>, other: int)
    requires other != fd
    ensures WorkOf(journal + Entries(fd, work), other) == WorkOf(journal, other)
  {
    if work == [] {
      assert journal + Entries(fd, work) == journal;
    } else {
      var init, last := work[..|work| - 1], work[|work| - 1];
      WorkElsewhere(journal, fd, init, other);
      WorkSnoc(journal + Entries(fd, init), Handled(fd, last), other);
      WorkCut(journal, fd, init, last);
      assert work == init + [last];
    }
  }

  /** A chunk of one client leaves all others alone. */
  lemma DataSpares<S>(h: (S, Message) -> (S, Outcome), t: Tcp<S>, fd: int, chunk: Bytes, other: int)
    requires fd in t.clients && chunk != [] && other != fd
    ensures SamePast(t, HandleClientData(h, t, fd, Packet(chunk, false)).0, other)
  {
    DataJournal(h, t, fd, chunk, other);
    WorkSnoc(t.journal, Received(fd, chunk), other);
    WorkElsewhere(t.journal + [Received(fd, chunk)], fd, Drive(h, t.state, t.clients[fd] + chunk).work, other);
  }

  lemma {:induction false} DroppedIgnores<S>(h: (S, Message) -> (S, Outcome), t: Tcp<S>, fd: int, chunks: seq<Bytes>)
    requires fd !in t.clients
    ensures ApplyAll(h, t, DataInputs(fd, chunks)) == t
    decreases |chunks|
  {
    if chunks != [] {
      assert DataInputs<S>(fd, chunks)[1..] == DataInputs<S>(fd, chunks[1..]);
      DroppedIgnores(h, t, fd, chunks[1..]);
    }
  }

  lemma {:induction false} DriveStops<S>(h: (S, Message) -> (S, Outcome), s: S, buffer: Bytes)
    ensures Drive(h, s, buffer).alive ==> Deserializer(Drive(h, s, buffer).rest) == None
    decreases |buffer|
  {
    match Deserializer(buffer)
    case None =>
    case Some(m) =>
      if h(s, m).1.Answered? { DriveStops(h, h(s, m).0, buffer[Consumed(m)..]); }
  }

  lemma EffectsCompose<S>(t: Tcp<S>, t1: Tcp<S>, t2: Tcp<S>, fd: int, d1: Driven<S>, d2: Driven<S>)
    requires fd in t.clients && d1.alive && HasEffect(t, t1, fd, d1) && HasEffect(t1, t2, fd, d2)
    ensures HasEffect(t, t2, fd, d2.(work := d1.work + d2.work))
  {
    assert t.clients[fd := d1.rest][fd := d2.rest] == t.clients[fd := d2.rest];
    assert t.clients[fd := d1.rest] - {fd} == t.clients - {fd};
    assert WorkOf(t.journal, fd) + d1.work + d2.work == WorkOf(t.journal, fd) + (d1.work + d2.work);
  }

  lemma DataInputsCons<S>(h: (S, Message) -> (S, Outcome), t: Tcp<S>, fd: int, chunks: seq<Bytes>)
    requires chunks != []
    ensures ApplyAll(h, t, DataInputs(fd, chunks))
            == ApplyAll(h, HandleClientData(h, t, fd, Packet(chunks[0], false)).0, DataInputs(fd, chunks[1..]))
  {
    var inputs := DataInputs<S>(fd, chunks);
    assert inputs[0] == Data(fd, Packet(chunks[0], false)) && inputs[1..] == DataInputs<S>(fd, chunks[1..]);
  }

  lemma DriveConcat<S>(h: (S, Message) -> (S, Outcome), s: S, buffer: Bytes, chunks: seq<Bytes>)
    requires chunks != []
    ensures Drive(h, s, buffer + Concat(chunks)) == Feed(h, Drive(h, s, buffer + chunks[0]), Concat(chunks[1..]))
  {
    ConcatCons(buffer, chunks);
    DriveInPieces(h, s, buffer + chunks[0], Concat(chunks[1..]));
  }

  lemma {:induction false} ChunksEffect<S>(
      h: (S, Message) -> (S, Outcome), t: Tcp<S>, fd: int, chunks: seq<Bytes>)
    requires fd in t.clients && Deserializer(t.clients[fd]) == None
    requires forall i :: 0 <= i < |chunks| ==> chunks[i] != []
    ensures HasEffect(t, ApplyAll(h, t, DataInputs(fd, chunks)), fd,
                      Drive(h, t.state, t.clients[fd] + Concat(chunks)))
    decreases |chunks|
  {
    var buffer := t.clients[fd];
    if chunks == [] {
      assert buffer + Concat(chunks) == buffer && t.clients[fd := buffer] == t.clients;
      assert WorkOf(t.journal, fd) + [] == WorkOf(t.journal, fd);
    } else {
      var t1 := HandleClientData(h, t, fd, Packet(chunks[0], false)).0;
      var d1 := Drive(h, t.state, buffer + chunks[0]);
      DataInputsCons(h, t, fd, chunks);
      DataEffect(h, t, fd, chunks[0]);
      DriveConcat(h, t.state, buffer, chunks);
      if d1.alive {
        DriveStops(h, t.state, buffer + chunks[0]);
        ChunksEffect(h, t1, fd, chunks[1..]);
        var d2 := Drive(h, d1.state, d1.rest + Concat(chunks[1..]));
        EffectsCompose(t, t1, ApplyAll(h, t1, DataInputs(fd, chunks[1..])), fd, d1, d2);
      } else {
        DroppedIgnores(h, t1, fd, chunks[1..]);
      }
    }
  }

  /** At the server itself, after whatever has happened: however a client's further
      bytes arrive in non-empty chunks, the work done with all replies, the handler's
      state, the fate of the client and its leftover are those of one greedy pass
      over all of them. */
  lemma ServerIndependence<S>(
      h: (S, Message) -> (S, Outcome), s: S, inputs: seq<Input<S>>, t: Tcp<S>, fd: int, chunks: seq<Bytes>)
    requires t == ApplyAll(h, Tcp(true, false, map[], s, []), inputs) && fd in t.clients
    requires forall i :: 0 <= i < |chunks| ==> chunks[i] != []
    ensures HasEffect(t, ApplyAll(h, t, DataInputs(fd, chunks)), fd,
                      Drive(h, t.state, t.clients[fd] + Concat(chunks)))
  {
    FreshServerOwnsStreams(s, true);
    ClientsNeverMix(h, Tcp(true, false, map[], s, []), inputs);
    ParseIsGreedy(BytesOf(t.journal, fd));
    ChunksEffect(h, t, fd, chunks);
  }

  /** A fresh server satisfies the invariant. */
  lemma FreshServerOwnsStreams<S>(s: S, running: bool)
    ensures OwnStreams(Tcp(running, false, map[], s, []))
  {
  }

  /** After `stopAccepting`, or once stopped, the set of clients never grows. */
  lemma {:induction false} ClientsNeverGrow<S>(h: (S, Message) -> (S, Outcome), t: Tcp<S>, inputs: seq<Input<S>>)
    requires t.stopAccepting || !t.running
    ensures var t' := ApplyAll(h, t, inputs);
            t'.clients.Keys <= t.clients.Keys && (t'.stopAccepting || !t'.running)
    decreases |inputs|
  {
    if inputs != [] {
      ClientsNeverGrow(h, Apply(h, t, inputs[0]), inputs[1..]);
    }
  }
}
