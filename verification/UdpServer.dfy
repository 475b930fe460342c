/** Datagrams from subscribers, one reply each. */
module UdpServers {
  import opened Sessions
  import opened SessionRuns
  import opened SessionManagers
  import opened Environment

  /** What `receive` finds next on the socket: a datagram, of which `sendOk` says
      whether it can be answered, or an error, which it throws. */
  datatype Datagram = Datagram(data: string, sender: int, sendOk: bool) | ReceiveFailed
  {
    predicate EndsBatch() { ReceiveFailed? || data == "" }
  }
  datatype Reply = Reply(text: string, receiver: int)

  const CREATED_TEXT := "created"
  const REJECTED_TEXT := "rejected"

  /** The manager and the world after a batch, what was sent, and what is still
      queued on the socket. */
  datatype Batch = Batch(mgr: Manager, world: World, replies: seq<Reply>, queue: seq<Datagram>)

  function Serve(m: Manager, w: World, d: Datagram): (Manager, World, string)
    requires d.Datagram?
  {
    if IsValidImsi(d.data) then
      var w' := Next(w).0;
      var (m', result) := Create(m, d.data, w'.clock);
      (m', w', if result == Created then CREATED_TEXT else REJECTED_TEXT)
    else (m, w, REJECTED_TEXT)
  }

  /** An empty datagram ends the batch, like an empty queue, and so does an
      exception out of the receiving or, the session being made, out of the sending. */
  function ProcessEvent(m: Manager, w: World, queue: seq<Datagram>): Batch
    decreases |queue|
  {
    if queue == [] then Batch(m, w, [], [])
    else if queue[0].EndsBatch() then Batch(m, w, [], queue[1..])
    else if !queue[0].sendOk then
      var (m', w', _) := Serve(m, w, queue[0]);
      Batch(m', w', [], queue[1..])
    else
      var (m', w', text) := Serve(m, w, queue[0]);
      var b := ProcessEvent(m', w', queue[1..]);
      b.(replies := [Reply(text, queue[0].sender)] + b.replies)
  }

  // ----- What a batch means -----

  /** How many datagrams a batch decides on. */
  function Decided(queue: seq<Datagram>): (n: nat)
    ensures n <= |queue|
    ensures forall i :: 0 <= i < n ==> !queue[i].EndsBatch()
  {
    if queue == [] || queue[0].EndsBatch() then 0
    else if !queue[0].sendOk then 1
    else 1 + Decided(queue[1..])
  }

  /** They are the longest prefix in which nothing ends the batch and only the last
      answer may fail. */
  lemma {:induction false} DecidedExactly(queue: seq<Datagram>, n: nat)
    requires n <= |queue|
    ensures n == Decided(queue)
            <==> && (forall i :: 0 <= i < n ==> !queue[i].EndsBatch() && (i < n - 1 ==> queue[i].sendOk))
                 && (n < |queue| ==> queue[n].EndsBatch() || (n > 0 && !queue[n - 1].sendOk))
  {
    if queue != [] && !queue[0].EndsBatch() && queue[0].sendOk && n > 0 {
      var rest := queue[1..];
      DecidedExactly(rest, n - 1);
      assert forall i :: 1 <= i < |queue| ==> queue[i] == rest[i - 1];
    }
  }

  /** The answer to the last datagram decided on could not be sent. */
  predicate Unsent(queue: seq<Datagram>) {
    Decided(queue) > 0 && !queue[Decided(queue) - 1].sendOk
  }

  /** A session for this IMSI would be created now. */
  predicate Eligible(m: Manager, imsi: Imsi) {
    !m.draining && IsValidImsi(imsi) && imsi !in m.blacklist && imsi !in m.sessions
  }

  predicate FirstOf(queue: seq<Datagram>, i: nat)
    requires i < Decided(queue)
  {
    forall j :: 0 <= j < i ==> queue[j].data != queue[i].data
  }

  lemma ServeEligibility(m: Manager, w: World, d: Datagram, imsi: Imsi)
    requires d.Datagram?
    ensures var (m', w', text) := Serve(m, w, d);
            && (text == CREATED_TEXT <==> Eligible(m, d.data))
            && (text == REJECTED_TEXT || text == CREATED_TEXT)
            && (Eligible(m', imsi) <==> Eligible(m, imsi) && imsi != d.data)
            && m'.sessions.Keys == m.sessions.Keys + if Eligible(m, d.data) then {d.data} else {}
  {
  }

  /** What a batch leaves on the socket: an item that ends it is consumed. */
  function Left(queue: seq<Datagram>): seq<Datagram> {
    var n := Decided(queue);
    if Unsent(queue) || n == |queue| then queue[n..] else queue[n + 1..]
  }

  lemma DecidedTail(queue: seq<Datagram>)
    requires queue != [] && !queue[0].EndsBatch() && queue[0].sendOk
    ensures var rest := queue[1..];
            Decided(queue) == 1 + Decided(rest) && (Unsent(queue) <==> Unsent(rest)) && Left(queue) == Left(rest)
  {
    var n := Decided(queue);
    assert queue[n..] == queue[1..][n - 1..];
    if n < |queue| { assert queue[n + 1..] == queue[1..][n..]; }
  }

  /** The answer datagram `i` deserves: "created" for the first occurrence of an
      eligible IMSI. */
  function Deserved(m: Manager, queue: seq<Datagram>, i: nat): Reply
    requires i < Decided(queue)
  {
    Reply(if Eligible(m, queue[i].data) && FirstOf(queue, i) then "created" else "rejected", queue[i].sender)
  }

  lemma DeservedLater(m: Manager, w: World, queue: seq<Datagram>, i: nat)
    requires 1 <= i < Decided(queue)
    ensures Deserved(Serve(m, w, queue[0]).0, queue[1..], i - 1) == Deserved(m, queue, i)
  {
    ServeEligibility(m, w, queue[0], queue[i].data);
    FirstOfTail(queue, i);
  }

  lemma DeservedFirst(m: Manager, w: World, queue: seq<Datagram>)
    requires 0 < Decided(queue)
    ensures Reply(Serve(m, w, queue[0]).2, queue[0].sender) == Deserved(m, queue, 0)
  {
    ServeEligibility(m, w, queue[0], queue[0].data);
  }

  /** Exactly one reply per datagram decided on, in order and to its sender, except
      a last one that cannot be sent, and "created" exactly for the first occurrence
      of each eligible IMSI. */
  lemma {:induction false} RepliesExactly(m: Manager, w: World, queue: seq<Datagram>)
    ensures var b := ProcessEvent(m, w, queue); var n := Decided(queue);
            && |b.replies| == (if Unsent(queue) then n - 1 else n)
            && b.queue == Left(queue)
            && forall i :: 0 <= i < |b.replies| ==> b.replies[i] == Deserved(m, queue, i)
    decreases |queue|
  {
    if queue != [] && !queue[0].EndsBatch() && queue[0].sendOk {
      var m', w' := Serve(m, w, queue[0]).0, Serve(m, w, queue[0]).1;
      var rest := queue[1..];
      var later := ProcessEvent(m', w', rest).replies;
      RepliesExactly(m', w', rest);
      DecidedTail(queue);
      DeservedFirst(m, w, queue);
      forall i | 1 <= i <= |later| ensures later[i - 1] == Deserved(m, queue, i) {
        DeservedLater(m, w, queue, i);
      }
    }
  }

  lemma FirstOfTail(queue: seq<Datagram>, i: nat)
    requires 1 <= i < Decided(queue)
    ensures FirstOf(queue, i) <==> FirstOf(queue[1..], i - 1) && queue[0].data != queue[i].data
  {
    if FirstOf(queue[1..], i - 1) && queue[0].data != queue[i].data {
      forall j | 0 <= j < i ensures queue[j].data != queue[i].data {
        if j > 0 { assert queue[j] == queue[1..][j - 1]; }
      }
    }
    if FirstOf(queue, i) {
      forall j | 0 <= j < i - 1 ensures queue[1..][j].data != queue[1..][i - 1].data {
        assert queue[1..][j] == queue[j + 1];
      }
    }
  }

  /** The session set grows by exactly the eligible IMSIs decided on, whether or not
      the answer could be sent. */
  lemma {:induction false} SessionsGrowExactly(m: Manager, w: World, queue: seq<Datagram>, k: Imsi)
    ensures k in ProcessEvent(m, w, queue).mgr.sessions
            <==> k in m.sessions || (Eligible(m, k) && exists i :: 0 <= i < Decided(queue) && queue[i].data == k)
    decreases |queue|
  {
    if queue != [] && !queue[0].EndsBatch() {
      ServeEligibility(m, w, queue[0], k);
      var n := Decided(queue);
      if queue[0].sendOk {
        var (m', w', text) := Serve(m, w, queue[0]);
        var rest := queue[1..];
        SessionsGrowExactly(m', w', rest, k);
        assert forall i :: 1 <= i < n ==> queue[i] == rest[i - 1];
        assert (exists i :: 0 <= i < n && queue[i].data == k)
          <==> queue[0].data == k || exists i :: 0 <= i < n - 1 && rest[i].data == k by {
          if i :| 0 <= i < n - 1 && rest[i].data == k { assert queue[i + 1].data == k; }
        }
      } else {
        assert n == 1;
        if queue[0].data == k { assert 0 < n && queue[0].data == k; }
      }
    }
  }

  /** The operations of the manager that a batch asks for: a creation for each valid
      payload it decides on, at the time it does. */
  function Creations(w: World, queue: seq<Datagram>): seq<Op>
    decreases |queue|
  {
    if queue == [] || queue[0].EndsBatch() then []
    else
      var valid := IsValidImsi(queue[0].data);
      var w' := if valid then Next(w).0 else w;
      (if valid then [CreateOp(queue[0].data, w'.clock)] else [])
      + if queue[0].sendOk then Creations(w', queue[1..]) else []
  }

  lemma ServeMeans(m: Manager, w: World, d: Datagram)
    requires d.Datagram?
    ensures var (m', w', _) := Serve(m, w, d);
            if IsValidImsi(d.data) then w' == Next(w).0 && m' == Apply(m, CreateOp(d.data, w'.clock))
            else (m', w') == (m, w)
  {
  }

  /** And a batch does to the manager what it asks for and nothing else. */
  lemma {:induction false} BatchMeans(m: Manager, w: World, queue: seq<Datagram>)
    ensures ProcessEvent(m, w, queue).mgr == ApplyAll(m, Creations(w, queue))
    decreases |queue|
  {
    if queue != [] && !queue[0].EndsBatch() {
      var (m', w', _) := Serve(m, w, queue[0]);
      var rest := if queue[0].sendOk then Creations(w', queue[1..]) else [];
      ServeMeans(m, w, queue[0]);
      if queue[0].sendOk { BatchMeans(m', w', queue[1..]); }
      if IsValidImsi(queue[0].data) {
        var op := CreateOp(queue[0].data, w'.clock);
        assert ([op] + rest)[0] == op && ([op] + rest)[1..] == rest;
      } else {
        assert [] + rest == rest;
      }
    }
  }

  /** A batch is something the manager may undergo. */
  lemma {:induction false} BatchEvolves(m: Manager, w: World, queue: seq<Datagram>)
    ensures var b := ProcessEvent(m, w, queue);
            w.clock <= b.world.clock && Evolves(m, b.mgr, w.clock, b.world.clock)
    decreases |queue|
  {
    if queue == [] || queue[0].EndsBatch() {
      EvolvesStay(m, w.clock, w.clock);
    } else {
      var (m', w', text) := Serve(m, w, queue[0]);
      if IsValidImsi(queue[0].data) {
        CreateEvolves(m, queue[0].data, w'.clock, w.clock, w'.clock);
      } else {
        EvolvesStay(m, w.clock, w'.clock);
      }
      if queue[0].sendOk {
        var b := ProcessEvent(m', w', queue[1..]);
        BatchEvolves(m', w', queue[1..]);
        EvolvesTrans(m, m', b.mgr, w.clock, w'.clock, b.world.clock);
      }
    }
  }

  // ----- The server -----

  class UdpServer {
    const manager: SessionManager
    const surroundings: Surroundings

    var running: bool
    var incoming: seq<Datagram>  // queued on the socket
    var sent: seq<Reply>

    constructor (manager: SessionManager, surroundings: Surroundings)
      ensures this.manager == manager && this.surroundings == surroundings
      ensures running && incoming == [] && sent == []
    {
      this.manager, this.surroundings := manager, surroundings;
      running, incoming, sent := true, [], [];
    }

    method Stop()
      modifies this
      ensures !running && incoming == old(incoming) && sent == old(sent)
    {
      running := false;
    }

    /** Decides on one datagram. */
    method Decide(data: string, sender: int, sendOk: bool) returns (answer: string)
      modifies manager, surroundings
      ensures (manager.Snapshot(), surroundings.Snapshot(), answer)
              == Serve(old(manager.Snapshot()), old(surroundings.Snapshot()), Datagram(data, sender, sendOk))
    {
      answer := REJECTED_TEXT;
      if IsValidImsi(data) {
        var t := surroundings.Interact();
        var result := manager.CreateSession(data, surroundings.clock);
        match result
        case Created => answer := CREATED_TEXT;
        case _ =>
      }
    }

    /** Reads, decides and answers until the socket has nothing more. */
    method ProcessPending()
      modifies this, manager, surroundings
      ensures running == old(running)
      ensures !running ==> manager.Snapshot() == old(manager.Snapshot()) && sent == old(sent)
                           && incoming == old(incoming) && surroundings.Snapshot() == old(surroundings.Snapshot())
      ensures running ==>
                var b := ProcessEvent(old(manager.Snapshot()), old(surroundings.Snapshot()), old(incoming));
                && manager.Snapshot() == b.mgr && surroundings.Snapshot() == b.world
                && incoming == b.queue && sent == old(sent) + b.replies
    {
      if !running { return; }
      ghost var whole := ProcessEvent(manager.Snapshot(), surroundings.Snapshot(), incoming);
      ghost var replies: seq<Reply> := [];
      while |incoming| > 0
        invariant running
        invariant sent == old(sent) + replies
        invariant var b := ProcessEvent(manager.Snapshot(), surroundings.Snapshot(), incoming);
                  whole == b.(replies := replies + b.replies)
        decreases |incoming|
      {
        var packet := incoming[0];
        incoming := incoming[1..];
        if packet.EndsBatch() { break; }
        var answer := Decide(packet.data, packet.sender, packet.sendOk);
        if !packet.sendOk { break; }
        sent := sent + [Reply(answer, packet.sender)];
        replies := replies + [Reply(answer, packet.sender)];
      }
    }
  }
}
