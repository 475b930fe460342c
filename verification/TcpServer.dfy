/** The TCP server: its client table over the command handler. */
module TcpServers {
  import opened Protocol
  import opened TcpSerializer
  import opened TcpFraming
  import opened TcpHandlers
  import opened Environment

  class TcpServer {
    const handler: TcpHandler
    const surroundings: Surroundings

    var running: bool
    var accepting: bool
    var clients: map<int, Bytes>  // the read buffer of each client
    var journal: seq<Entry>

    constructor (handler: TcpHandler, surroundings: Surroundings)
      ensures this.handler == handler && this.surroundings == surroundings
      ensures running && accepting && clients == map[] && journal == []
    {
      this.handler, this.surroundings := handler, surroundings;
      running, accepting, clients, journal := true, true, map[], [];
    }

    function State(): HState
      reads handler.manager, handler.shutdownRequest, surroundings
    {
      handler.State(surroundings.Snapshot())
    }

    function Snapshot(): Tcp<HState>
      reads this, handler.manager, handler.shutdownRequest, surroundings
    {
      Tcp(running, !accepting, clients, State(), journal)
    }

    method Stop()
      modifies this
      ensures Snapshot() == StopServer(old(Snapshot()))
    {
      if running {
        running := false;
        clients := map[];
      }
    }

    method StopAccepting()
      modifies this
      ensures Snapshot() == Apply(Stepper(handler.services), old(Snapshot()), Input.StopAccepting)
    {
      accepting := false;
    }

    /** None stands for an exception that escapes. */
    method AcceptNewClient(incoming: Incoming) returns (fd: Option<int>)
      modifies this
      ensures (Snapshot(), fd) == TcpFraming.AcceptNewClient(old(Snapshot()), incoming)
    {
      if !running { return Some(-1); }
      if !accepting { return if incoming.AcceptFailed? then None else Some(-1); }
      match incoming
      case NewSocket(clientFd) =>
        clients := clients[clientFd := []];
        journal := journal + [Accepted(clientFd)];
        return Some(clientFd);
      case _ =>
        return Some(-1);
    }

    method RemoveClient(fd: int)
      modifies this
      ensures Snapshot() == TcpFraming.RemoveClient(old(Snapshot()), fd)
    {
      clients := clients - {fd};
    }

    /** One turn of the serving loop; an exception drops the client. */
    method ServeMessage(fd: int, msg: Message) returns (ok: bool)
      requires fd in clients && Consumed(msg) <= |clients[fd]|
      modifies this, handler.manager, handler.shutdownRequest, surroundings
      ensures (Snapshot(), ok) == ServeOne(Stepper(handler.services), old(Snapshot()), fd, msg)
    {
      ghost var past := State();
      var t := surroundings.Interact();
      var response := handler.HandleRequest(msg, t.junk, surroundings.Snapshot());
      assert Stepper(handler.services)(past, msg) == HandleAndSend(handler.services, past, msg);
      ok := response.Some? && t.sendOk;
      if ok {
        journal := journal + [Handled(fd, Work(msg, Some(Serializer(response.value))))];
        clients := clients[fd := clients[fd][Consumed(msg)..]];
      } else {
        journal := journal + [Handled(fd, Work(msg, None))];
        RemoveClient(fd);
      }
    }

    /** Appends the data to the client's buffer and serves what has become
        complete; no data means a look at whether the peer is gone. */
    method HandleClientData(fd: int, packet: Packet) returns (open: bool)
      modifies this, handler.manager, handler.shutdownRequest, surroundings
      ensures (Snapshot(), open)
              == TcpFraming.HandleClientData(Stepper(handler.services), old(Snapshot()), fd, packet)
    {
      if fd !in clients { return false; }
      if packet.ReceiveFailed? {
        RemoveClient(fd);
        return false;
      }
      if packet.data == [] {
        if packet.peerClosed { RemoveClient(fd); }
        return false;
      }
      clients := clients[fd := clients[fd] + packet.data];
      journal := journal + [Received(fd, packet.data)];
      ghost var h := Stepper(handler.services);
      ghost var served := Serve(h, Snapshot(), fd);
      while true
        invariant fd in clients
        invariant served == Serve(h, Snapshot(), fd)
        decreases |clients[fd]|
      {
        ServeByTurns(h, Snapshot(), fd);
        var msg := Deserializer(clients[fd]);
        if msg.None? { break; }
        var ok := ServeMessage(fd, msg.value);
        if !ok { return false; }
      }
      return true;
    }
  }
}
