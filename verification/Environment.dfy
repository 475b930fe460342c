/** What the servers cannot decide themselves: the clock, bytes of memory nobody
    set, and whether a send succeeds. */
module Environment {
  import opened Protocol
  import opened Sessions

  /** One interaction: the time that passes before it, the byte an uninitialised
      field holds, and whether the send that ends it throws. */
  datatype Tick = Tick(wait: nat, junk: Byte, sendOk: bool)

  datatype World = World(clock: Instant, tape: seq<Tick>)

  function Next(w: World): (World, Tick) {
    if w.tape == [] then (w, Tick(0, 0, true))
    else (World(w.clock + w.tape[0].wait, w.tape[1..]), w.tape[0])
  }

  /** The environment as an object: reading it consumes the tape. */
  class Surroundings {
    var clock: Instant
    var tape: seq<Tick>

    function Snapshot(): World
      reads this
    {
      World(clock, tape)
    }

    constructor (clock: Instant, tape: seq<Tick>)
      ensures Snapshot() == World(clock, tape)
    {
      this.clock, this.tape := clock, tape;
    }

    method Interact() returns (t: Tick)
      modifies this
      ensures (Snapshot(), t) == Next(old(Snapshot()))
    {
      if tape == [] { return Tick(0, 0, true); }
      t := tape[0];
      clock, tape := clock + t.wait, tape[1..];
    }
  }

  /** The flag by which anybody asks the server to shut down. */
  class Flag {
    var raised: bool

    constructor ()
      ensures !raised
    {
      raised := false;
    }

    method Raise()
      modifies this
      ensures raised
    {
      raised := true;
    }
  }
}
