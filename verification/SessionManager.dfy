/** The session manager as the object the servers share. */
module SessionManagers {
  import opened Sessions
  import opened SessionLog
  import opened SessionRuns
  import Pacing

  class SessionManager {
    const timeout: int  // nanoseconds
    const shutdownRate: int

    var sessions: map<Imsi, Instant>
    var blacklist: set<Imsi>
    var draining: bool
    var stats: Statistics
    var cdr: seq<Cdr>  // what the CDR writer was given

    function Snapshot(): Manager
      reads this
    {
      Manager(sessions, blacklist, draining, stats, cdr)
    }

    constructor (blacklist: set<Imsi>, timeout: int, shutdownRate: int)
      ensures Snapshot() == Initial(blacklist) && Inv(Snapshot())
      ensures this.timeout == timeout && this.shutdownRate == shutdownRate
    {
      this.timeout, this.shutdownRate := timeout, shutdownRate;
      this.sessions, this.blacklist, this.draining := map[], blacklist, false;
      this.stats, this.cdr := Statistics(0, 0, 0, 0, 0, 0), [];
    }

    method WriteAction(imsi: Imsi, action: Action)
      modifies this`cdr
      ensures cdr == old(cdr) + [Cdr(imsi, action)]
    {
      cdr := cdr + [Cdr(imsi, action)];
    }

    predicate HasSession(imsi: Imsi)
      reads this
    {
      imsi in sessions
    }

    method CreateSession(imsi: Imsi, now: Instant) returns (result: CreateResult)
      modifies this
      ensures (Snapshot(), result) == Create(old(Snapshot()), imsi, now)
      ensures result != Error
    {
      result := Error;
      if draining { return ServiceUnavailable; }
      if imsi in blacklist {
        WriteAction(imsi, REJECTED);
        stats := stats.(rejected := stats.rejected + 1);
        stats := stats.(total := stats.total + 1);
        return RejectedBlacklist;
      }
      if HasSession(imsi) { return AlreadyExists; }
      var inserted := imsi !in sessions;
      if inserted {
        sessions := sessions[imsi := now];
        WriteAction(imsi, CREATED);
        stats := stats.(created := stats.created + 1);
        stats := stats.(total := stats.total + 1);
        stats := stats.(active := |sessions|);
        return Created;
      } else {
        assert false;  // the "not inserted" branch, which would record ERROR
      }
    }

    method DeleteSession(imsi: Imsi)
      requires imsi in sessions
      modifies this
      ensures Snapshot() == Delete(old(Snapshot()), imsi)
    {
      sessions := sessions - {imsi};
      WriteAction(imsi, DELETED);
      stats := stats.(active := |sessions|);
    }

    /** `first` names the entry the hash table put first. */
    method ShutdownSession() returns (more: bool, ghost first: Imsi)
      modifies this
      ensures (Snapshot(), more) == ShutdownOne(old(Snapshot()), first)
    {
      first := "";
      if sessions.Keys == {} { return false, first; }
      var it :| it in sessions.Keys;
      first := it;
      DeleteSession(it);
      stats := stats.(terminated := stats.terminated + 1);
      more := true;
    }

    method TerminateSession(imsi: Imsi) returns (found: bool)
      modifies this
      ensures (Snapshot(), found) == Terminate(old(Snapshot()), imsi)
    {
      if imsi in sessions {
        DeleteSession(imsi);
        stats := stats.(terminated := stats.terminated + 1);
        return true;
      }
      return false;
    }

    /** An entry under the iterator of the clean-up. */
    method VisitSession(imsi: Imsi, now: Instant)
      requires imsi in sessions
      modifies this
      ensures Snapshot() == Visit(old(Snapshot()), imsi, now, timeout)
    {
      if now - sessions[imsi] >= timeout {
        DeleteSession(imsi);
        stats := stats.(expired := stats.expired + 1);
      }
    }

    /** `order` is the order in which the hash table was walked. */
    method CleanTimeoutSessions(now: Instant) returns (ghost order: seq<Imsi>)
      modifies this
      ensures Enumerates(order, old(sessions.Keys))
      ensures Snapshot() == Clean(old(Snapshot()), order, now, timeout)
    {
      var ahead := sessions.Keys;
      order := [];
      while ahead != {}
        invariant ahead <= old(sessions.Keys) && ahead <= sessions.Keys
        invariant Enumerates(order, old(sessions.Keys) - ahead)
        invariant Snapshot() == VisitAll(old(Snapshot()), order, now, timeout)
        decreases ahead
      {
        var it :| it in ahead;
        VisitSession(it, now);
        DistinctSnoc(order, it);
        ghost var visited := order;
        order := order + [it];
        assert order[..|order| - 1] == visited;
        assert forall k :: k in order <==> k in visited || k == it;
        ahead := ahead - {it};
      }
      assert old(sessions.Keys) - ahead == old(sessions.Keys);
    }

    method AddToBlacklist(imsi: Imsi) returns (added: bool)
      modifies this
      ensures (Snapshot(), added) == Sessions.AddToBlacklist(old(Snapshot()), imsi)
    {
      if IsValidImsi(imsi) {
        added := imsi !in blacklist;
        blacklist := blacklist + {imsi};
      } else {
        added := false;
      }
    }

    method StartDraining()
      modifies this
      ensures Snapshot() == Sessions.StartDraining(old(Snapshot()))
    {
      draining := true;
    }

    method GetStatistics() returns (s: Statistics)
      ensures s == stats.(active := |sessions|)
    {
      s := stats.(active := |sessions|);
    }

    /** The delay of one iteration of the graceful shutdown. */
    method Pause(delay: int, start: Instant, p: Pacing.Pace, l: Pacing.Lag) returns (p': Pacing.Pace)
      ensures p' == Pacing.Step(delay, timeout, start, p, l)
    {
      var now, last, timedOut := p.now + l.work, p.last, p.timedOut;
      if !timedOut {
        var since := now - last;
        if since < delay {
          var pause := delay - since;
          if start - now > timeout {
            timedOut := true;
          } else {
            now := now + pause + l.oversleep;
            last := now;
          }
        }
      }
      p' := Pacing.Pace(now, last, timedOut);
    }

    /** One more removal; false says there was nothing left. */
    method RemoveNext(ghost begun: Manager, ghost firsts: seq<Imsi>) returns (more: bool, ghost taken: seq<Imsi>)
      requires Snapshot() == DrainAll(begun, firsts)
      modifies this
      ensures Snapshot() == DrainAll(begun, taken) && |taken| == |firsts| + 1
      ensures if more then |sessions.Keys| == |old(sessions.Keys)| - 1
              else sessions.Keys == old(sessions.Keys) == {}
    {
      ghost var past := Snapshot();
      ghost var first;
      more, first := ShutdownSession();
      ShutdownRemovesOne(past, first);
      DrainAllSnoc(begun, firsts, first);
      taken := firsts + [first];
    }

    /** The iterations, each a pause until the removal starts and the removal. */
    method RemoveAll(start: Instant, lag: nat -> Pacing.Lag) returns (removals: seq<Instant>, ghost firsts: seq<Imsi>)
      requires shutdownRate > 0
      modifies this
      ensures Snapshot() == DrainAll(old(Snapshot()), firsts) && sessions.Keys == {}
      ensures removals == Pacing.Removals(Pacing.Delay(shutdownRate), timeout, start, lag, |old(sessions.Keys)| + 1)
    {
      ghost var begun := Snapshot();
      ghost var n := |sessions.Keys|;
      var delay := Pacing.Delay(shutdownRate);
      var pace, available := Pacing.Pace(start, start, false), true;
      removals, firsts := [], [];
      while available
        invariant Snapshot() == DrainAll(begun, firsts)
        invariant if available then |sessions.Keys| + |removals| == n else sessions.Keys == {} && |removals| == n + 1
        invariant pace == Pacing.After(delay, timeout, start, lag, |removals|)
        invariant removals == Pacing.Removals(delay, timeout, start, lag, |removals|)
        decreases available, |sessions.Keys|
      {
        pace := Pause(delay, start, pace, lag(|removals|));
        removals := removals + [pace.now];
        available, firsts := RemoveNext(begun, firsts);
      }
    }

    /** Removes every session, one per iteration, `lag` saying how long iteration
        `i` takes; `removals` are the instants at which the removals start. */
    method GracefulShutdown(start: Instant, lag: nat -> Pacing.Lag) returns (removals: seq<Instant>)
      requires shutdownRate > 0
      modifies this
      ensures sessions.Keys == {} && stats.active == 0
      ensures Drained(Sessions.StartDraining(old(Snapshot())), Snapshot(), |old(sessions.Keys)|)
      ensures removals == Pacing.Removals(Pacing.Delay(shutdownRate), timeout, start, lag, |old(sessions.Keys)| + 1)
    {
      draining := true;
      ghost var begun := Snapshot();
      ghost var firsts;
      removals, firsts := RemoveAll(start, lag);
      DrainedEmpty(begun, firsts);
      if sessions.Keys == {} {
        stats := stats.(active := 0);
      }
    }
  }
}
