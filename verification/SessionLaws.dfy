/** What each operation of the session manager does, told from the situation it
    meets, and what that makes of whole runs. */
module SessionLaws {
  import opened Sessions
  import opened SessionLog

  /** Nothing but this record and these counters are new. */
  ghost predicate Recorded(
      m: Manager, m': Manager, e: Cdr, created: nat, rejected: nat, expired: nat, terminated: nat)
  {
    && m'.log == m.log + [e] && m'.blacklist == m.blacklist && m'.draining == m.draining
    && m'.stats.created == m.stats.created + created && m'.stats.rejected == m.stats.rejected + rejected
    && m'.stats.total == m.stats.total + created + rejected
    && m'.stats.expired == m.stats.expired + expired && m'.stats.terminated == m.stats.terminated + terminated
  }

  /** A creation asked for: while draining, or for an active IMSI that is not
      blacklisted, nothing changes; for a blacklisted one it is recorded and counted
      as rejected; otherwise the session is there from now on, recorded and counted. */
  lemma CreationMeans(m: Manager, imsi: Imsi, now: Instant)
    ensures var (m', result) := Create(m, imsi, now);
            if m.draining then m' == m && result == ServiceUnavailable
            else if imsi in m.blacklist then
              && result == RejectedBlacklist && m'.sessions == m.sessions && m'.stats.active == m.stats.active
              && Recorded(m, m', Cdr(imsi, REJECTED), 0, 1, 0, 0)
            else if imsi in m.sessions then m' == m && result == AlreadyExists
            else
              && result == Created && m'.sessions.Keys == m.sessions.Keys + {imsi} && m'.sessions[imsi] == now
              && (forall k :: k in m.sessions ==> m'.sessions[k] == m.sessions[k])
              && m'.stats.active == |m'.sessions| && Recorded(m, m', Cdr(imsi, CREATED), 1, 0, 0, 0)
  {
  }

  /** A termination asked for: an active session goes, recorded and counted, and no
      other; for an inactive IMSI nothing changes. */
  lemma TerminationMeans(m: Manager, imsi: Imsi)
    ensures var (m', found) := Terminate(m, imsi);
            if imsi in m.sessions then
              && found && m'.sessions.Keys == m.sessions.Keys - {imsi}
              && (forall k :: k in m'.sessions ==> m'.sessions[k] == m.sessions[k])
              && m'.stats.active == |m'.sessions| && Recorded(m, m', Cdr(imsi, DELETED), 0, 0, 0, 1)
            else m' == m && !found
  {
  }

  /** Only a valid IMSI is put on the blacklist; nothing else changes, not even an
      active session of it. */
  lemma ListingMeans(m: Manager, imsi: Imsi)
    ensures var (m', added) := AddToBlacklist(m, imsi);
            && (added <==> IsValidImsi(imsi) && imsi !in m.blacklist)
            && m'.blacklist == m.blacklist + (if added then {imsi} else {})
            && m'.sessions == m.sessions && m'.log == m.log && m'.stats == m.stats && m'.draining == m.draining
  {
  }

  // ----- Over a run -----

  /** The blacklist after these operations: every valid IMSI ever put on it. */
  ghost predicate EverListed(blacklist: set<Imsi>, ops: seq<Op>, imsi: Imsi) {
    imsi in blacklist || (IsValidImsi(imsi) && BlacklistOp(imsi) in ops)
  }

  lemma OneOpRun(m: Manager, op: Op)
    ensures ApplyAll(m, [op]) == Apply(m, op) && ApplyAll(m, []) == m
  {
    assert ApplyAll(Apply(m, op), [op][1..]) == Apply(m, op);
  }

  lemma OneOp(m: Manager, op: Op, imsi: Imsi)
    ensures imsi in Apply(m, op).blacklist <==> EverListed(m.blacklist, [op], imsi)
    ensures Apply(m, op).draining <==> m.draining || op == DrainOp
  {
    match op
    case CreateOp(k, now) => CreationMeans(m, k, now);
    case TerminateOp(k) => TerminationMeans(m, k);
    case ShutdownOp(first) =>
      if m.sessions.Keys != {} { TerminationMeans(m, First(m.sessions.Keys, first)); }
    case CleanOp(order, now, timeout) => CleanLeavesTheYoung(m, order, now, timeout);
    case BlacklistOp(k) => ListingMeans(m, k);
    case _ =>
  }

  /** After any run an IMSI is blacklisted iff it was or a valid one was listed in it,
      and the manager is draining iff it was or the run started that. */
  lemma {:induction false} SettingsFollow(m: Manager, ops: seq<Op>, imsi: Imsi)
    ensures imsi in ApplyAll(m, ops).blacklist <==> EverListed(m.blacklist, ops, imsi)
    ensures ApplyAll(m, ops).draining <==> m.draining || DrainOp in ops
    decreases |ops|
  {
    if ops != [] {
      OneOp(m, ops[0], imsi);
      SettingsFollow(Apply(m, ops[0]), ops[1..], imsi);
      assert forall op :: op in ops <==> op == ops[0] || op in ops[1..];
    }
  }

  /** How often a creation was asked for this IMSI while it was on the blacklist and
      the manager not draining, read off the operations alone. */
  ghost function Refusals(blacklist: set<Imsi>, draining: bool, ops: seq<Op>, imsi: Imsi): nat {
    if ops == [] then 0
    else
      var past, op := ops[..|ops| - 1], ops[|ops| - 1];
      Refusals(blacklist, draining, past, imsi)
      + if op.CreateOp? && op.imsi == imsi && EverListed(blacklist, past, imsi) && !draining && DrainOp !in past
        then 1 else 0
  }

  lemma {:induction false} ApplyAllSnoc(m: Manager, ops: seq<Op>)
    requires ops != []
    ensures ApplyAll(m, ops) == Apply(ApplyAll(m, ops[..|ops| - 1]), ops[|ops| - 1])
    decreases |ops|
  {
    if |ops| > 1 {
      ApplyAllSnoc(Apply(m, ops[0]), ops[1..]);
      assert ops[1..][..|ops| - 2] == ops[..|ops| - 1][1..];
    }
  }

  lemma CountForSnoc(log: seq<Cdr>, e: Cdr, imsi: Imsi, action: Action)
    ensures CountFor(log + [e], imsi, action) == CountFor(log, imsi, action) + if e == Cdr(imsi, action) then 1 else 0
  {
    assert (log + [e])[..|log|] == log;
  }

  lemma {:induction false} DeletionsRefuseNobody(log: seq<Cdr>, ks: seq<Imsi>, imsi: Imsi)
    ensures CountFor(log + Deletions(ks), imsi, REJECTED) == CountFor(log, imsi, REJECTED)
  {
    if ks == [] {
      assert log + Deletions(ks) == log;
    } else {
      var init, last := ks[..|ks| - 1], ks[|ks| - 1];
      DeletionsRefuseNobody(log, init, imsi);
      CountForSnoc(log + Deletions(init), Cdr(last, DELETED), imsi, REJECTED);
      assert log + Deletions(ks) == log + Deletions(init) + [Cdr(last, DELETED)];
    }
  }

  lemma OpRefuses(m: Manager, op: Op, imsi: Imsi)
    ensures CountFor(Apply(m, op).log, imsi, REJECTED)
            == CountFor(m.log, imsi, REJECTED)
               + if op.CreateOp? && op.imsi == imsi && imsi in m.blacklist && !m.draining then 1 else 0
  {
    match op
    case CreateOp(k, now) =>
      CreationMeans(m, k, now);
      CountForSnoc(m.log, Cdr(k, REJECTED), imsi, REJECTED);
      CountForSnoc(m.log, Cdr(k, CREATED), imsi, REJECTED);
    case TerminateOp(k) =>
      TerminationMeans(m, k);
      CountForSnoc(m.log, Cdr(k, DELETED), imsi, REJECTED);
    case ShutdownOp(first) =>
      if m.sessions.Keys != {} {
        var k := First(m.sessions.Keys, first);
        TerminationMeans(m, k);
        CountForSnoc(m.log, Cdr(k, DELETED), imsi, REJECTED);
      }
    case CleanOp(order, now, timeout) =>
      CleanRecordsEachOnce(m, order, now, timeout);
      DeletionsRefuseNobody(m.log, Removed(m, order, now, timeout), imsi);
    case _ =>
  }

  /** In any run the REJECTED records of an IMSI are exactly the creations asked for
      it while it was blacklisted and the manager not draining. */
  lemma {:induction false} RefusalsAreRecorded(m: Manager, ops: seq<Op>, imsi: Imsi)
    ensures CountFor(ApplyAll(m, ops).log, imsi, REJECTED)
            == CountFor(m.log, imsi, REJECTED) + Refusals(m.blacklist, m.draining, ops, imsi)
    decreases |ops|
  {
    if ops != [] {
      var past := ops[..|ops| - 1];
      RefusalsAreRecorded(m, past, imsi);
      SettingsFollow(m, past, imsi);
      ApplyAllSnoc(m, ops);
      OpRefuses(ApplyAll(m, past), ops[|ops| - 1], imsi);
    }
  }
}
