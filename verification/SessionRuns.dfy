/** What every part of the server may do to the sessions, as one relation that
    all of them keep and that composes. */
module SessionRuns {
  import opened Sessions
  import opened SessionLog

  /** From `m` the manager may come to `m'` with all clock readings from `since` to
      `until`. */
  ghost predicate Evolves(m: Manager, m': Manager, since: Instant, until: Instant) {
    && (Inv(m) ==> Inv(m'))
    && m.log <= m'.log
    && m.blacklist <= m'.blacklist
    && (m.draining ==> m'.draining && m'.sessions.Keys <= m.sessions.Keys)
    && (forall k :: k in m'.sessions ==>
          (k in m.sessions && m'.sessions[k] == m.sessions[k]) || since <= m'.sessions[k] <= until)
    && (forall k :: k in m.blacklist && k !in m.sessions ==> k !in m'.sessions)
  }

  lemma EvolvesStay(m: Manager, since: Instant, until: Instant)
    ensures Evolves(m, m, since, until)
  {
  }

  lemma EvolvesTrans(a: Manager, b: Manager, c: Manager, since: Instant, mid: Instant, until: Instant)
    requires Evolves(a, b, since, mid) && Evolves(b, c, mid, until) && since <= mid <= until
    ensures Evolves(a, c, since, until)
  {
  }

  /** Every session was younger than `timeout` at the instant `at`. */
  ghost predicate Young(m: Manager, at: Instant, timeout: int) {
    forall k :: k in m.sessions ==> at - m.sessions[k] < timeout
  }

  /** No session was created after the instant `now`. */
  ghost predicate Past(m: Manager, now: Instant) {
    forall k :: k in m.sessions ==> m.sessions[k] <= now
  }

  lemma AgesEvolve(m: Manager, m': Manager, since: Instant, until: Instant, at: Instant, timeout: int)
    requires Evolves(m, m', since, until) && Young(m, at, timeout) && Past(m, since)
    requires at <= since <= until && timeout > 0
    ensures Young(m', at, timeout) && Past(m', until)
  {
  }

  lemma CleanIsYoung(m: Manager, order: seq<Imsi>, now: Instant, at: Instant, timeout: int)
    requires at <= now && Past(m, now)
    ensures Young(Clean(m, order, now, timeout), at, timeout) && Past(Clean(m, order, now, timeout), now)
  {
    CleanLeavesTheYoung(m, order, now, timeout);
  }

  lemma CreateEvolves(m: Manager, imsi: Imsi, now: Instant, since: Instant, until: Instant)
    requires since <= now <= until
    ensures Evolves(m, Create(m, imsi, now).0, since, until)
  {
    if Inv(m) { CreateKeepsInv(m, imsi, now); }
  }

  lemma TerminateEvolves(m: Manager, imsi: Imsi, since: Instant, until: Instant)
    ensures Evolves(m, Terminate(m, imsi).0, since, until)
  {
    if Inv(m) { TerminateKeepsInv(m, imsi); }
  }

  lemma ShutdownEvolves(m: Manager, first: Imsi, since: Instant, until: Instant)
    ensures Evolves(m, ShutdownOne(m, first).0, since, until)
  {
    if m.sessions.Keys != {} { TerminateEvolves(m, First(m.sessions.Keys, first), since, until); }
  }

  lemma CleanEvolves(m: Manager, order: seq<Imsi>, now: Instant, timeout: int, since: Instant, until: Instant)
    ensures Evolves(m, Clean(m, order, now, timeout), since, until)
  {
    if Inv(m) { VisitAllKeepsInv(m, Enumeration(m.sessions.Keys, order), now, timeout); }
    CleanLeavesTheYoung(m, order, now, timeout);
    CleanRecordsEachOnce(m, order, now, timeout);
  }

  /** `shutdownSession` removes exactly one session, or says there was none. */
  lemma ShutdownRemovesOne(m: Manager, first: Imsi)
    ensures var (m', more) := ShutdownOne(m, first);
            && (more <==> m.sessions.Keys != {})
            && (more ==> |m'.sessions.Keys| == |m.sessions.Keys| - 1 && m'.sessions.Keys <= m.sessions.Keys)
            && (!more ==> m' == m)
            && m'.stats.terminated == m.stats.terminated + if more then 1 else 0
  {
    if m.sessions.Keys != {} {
      var k := First(m.sessions.Keys, first);
      assert (m.sessions - {k}).Keys == m.sessions.Keys - {k};
    }
  }

  /** `n` sessions were drained: each left one DELETED record and was counted as
      terminated, and nothing else changed. */
  ghost predicate Drained(m: Manager, m': Manager, n: nat) {
    && (Inv(m) ==> Inv(m'))
    && m'.sessions.Keys <= m.sessions.Keys
    && |m'.sessions.Keys| + n == |m.sessions.Keys|
    && m'.stats.terminated == m.stats.terminated + n
    && (m'.draining <==> m.draining) && m'.blacklist == m.blacklist
    && |m'.log| == |m.log| + n && m.log <= m'.log
    && (forall i :: |m.log| <= i < |m'.log| ==> m'.log[i].action == DELETED)
  }

  lemma DrainedSnoc(m: Manager, m': Manager, n: nat, first: Imsi)
    requires Drained(m, m', n)
    ensures var (m'', more) := ShutdownOne(m', first);
            Drained(m, m'', n + if more then 1 else 0)
  {
    ShutdownRemovesOne(m', first);
    ShutdownEvolves(m', first, 0, 0);
  }

  /** A number of drains one after another. */
  ghost function DrainAll(m: Manager, firsts: seq<Imsi>): Manager {
    if firsts == [] then m else ShutdownOne(DrainAll(m, firsts[..|firsts| - 1]), firsts[|firsts| - 1]).0
  }

  lemma DrainAllSnoc(m: Manager, firsts: seq<Imsi>, first: Imsi)
    ensures DrainAll(m, firsts + [first]) == ShutdownOne(DrainAll(m, firsts), first).0
  {
    assert (firsts + [first])[..|firsts|] == firsts;
  }

  lemma {:induction false} DrainAllEffect(m: Manager, firsts: seq<Imsi>)
    ensures Drained(m, DrainAll(m, firsts), if |firsts| <= |m.sessions.Keys| then |firsts| else |m.sessions.Keys|)
  {
    if firsts != [] {
      var before := DrainAll(m, firsts[..|firsts| - 1]);
      DrainAllEffect(m, firsts[..|firsts| - 1]);
      ShutdownRemovesOne(before, firsts[|firsts| - 1]);
      DrainedSnoc(m, before, |m.sessions.Keys| - |before.sessions.Keys|, firsts[|firsts| - 1]);
    }
  }

  /** Enough drains empty the table, and setting the active counter of the empty
      table to zero then changes nothing else. */
  lemma DrainedEmpty(m: Manager, firsts: seq<Imsi>)
    requires DrainAll(m, firsts).sessions.Keys == {}
    ensures var m' := DrainAll(m, firsts);
            Drained(m, m'.(stats := m'.stats.(active := 0)), |m.sessions.Keys|)
  {
    var m' := DrainAll(m, firsts);
    DrainAllEffect(m, firsts);
    assert |m'.sessions| == |m'.sessions.Keys|;
  }

  predicate ReadBetween(ops: seq<Op>, since: Instant, until: Instant) {
    forall i :: 0 <= i < |ops| && ops[i].CreateOp? ==> since <= ops[i].now <= until
  }

  lemma {:induction false} ReadingsAreBounded(ops: seq<Op>) returns (since: Instant, until: Instant)
    ensures since <= until && ReadBetween(ops, since, until)
  {
    since, until := 0, 0;
    if ops != [] {
      since, until := ReadingsAreBounded(ops[1..]);
      if ops[0].CreateOp? {
        since := if ops[0].now < since then ops[0].now else since;
        until := if ops[0].now > until then ops[0].now else until;
      }
    }
  }

  lemma OpEvolves(m: Manager, op: Op, since: Instant, until: Instant)
    requires op.CreateOp? ==> since <= op.now <= until
    ensures Evolves(m, Apply(m, op), since, until)
  {
    match op
    case CreateOp(imsi, now) => CreateEvolves(m, imsi, now, since, until);
    case TerminateOp(imsi) => TerminateEvolves(m, imsi, since, until);
    case ShutdownOp(first) => ShutdownEvolves(m, first, since, until);
    case CleanOp(order, now, timeout) => CleanEvolves(m, order, now, timeout, since, until);
    case BlacklistOp(imsi) =>
    case DrainOp =>
  }

  /** Evolution within fixed bounds composes. */
  lemma EvolvesWithin(a: Manager, b: Manager, c: Manager, since: Instant, until: Instant)
    requires Evolves(a, b, since, until) && Evolves(b, c, since, until)
    ensures Evolves(a, c, since, until)
  {
  }

  lemma {:induction false} RunEvolves(m: Manager, ops: seq<Op>, since: Instant, until: Instant)
    requires ReadBetween(ops, since, until)
    ensures Evolves(m, ApplyAll(m, ops), since, until)
    decreases |ops|
  {
    if ops == [] {
      EvolvesStay(m, since, until);
    } else {
      OpEvolves(m, ops[0], since, until);
      RunEvolves(Apply(m, ops[0]), ops[1..], since, until);
      EvolvesWithin(m, Apply(m, ops[0]), ApplyAll(m, ops), since, until);
    }
  }

  /** An IMSI blacklisted while inactive stays inactive whatever is done next. */
  lemma BlacklistedStaysOut(m: Manager, ops: seq<Op>, imsi: Imsi)
    requires imsi in m.blacklist && imsi !in m.sessions
    ensures imsi !in ApplyAll(m, ops).sessions && imsi in ApplyAll(m, ops).blacklist
  {
    var since, until := ReadingsAreBounded(ops);
    RunEvolves(m, ops, since, until);
  }

  /** Once draining, no operation adds a session. */
  lemma DrainingNeverAdds(m: Manager, ops: seq<Op>)
    requires m.draining
    ensures ApplyAll(m, ops).sessions.Keys <= m.sessions.Keys && ApplyAll(m, ops).draining
  {
    var since, until := ReadingsAreBounded(ops);
    RunEvolves(m, ops, since, until);
  }
}
