/** A flush with one flushing thread while others only write, in closed form. */
module LoneFlushes {
  import opened CdrBatching
  import opened Flushing

  /** What such a flush meets; `writes(i)` is what others write before BEGIN and
      then before what follows the i-th statement. */
  datatype LoneEnv = LoneEnv(
    granted: bool, writes: nat -> seq<(string, string)>, insertOk: nat -> bool, rollbackOk: bool, commit: CommitResult)
  {
    function Env(): FlushEnv {
      FlushEnv(granted, (i: nat) => Writes(writes(i)), insertOk, rollbackOk, commit)
    }
  }

  function Writes(ws: seq<(string, string)>): seq<Step> {
    seq(|ws|, i requires 0 <= i < |ws| => Write(ws[i].0, ws[i].1))
  }

  // ----- What others write -----

  function Recs(first: nat, ws: seq<(string, string)>): seq<Rec> {
    seq(|ws|, i requires 0 <= i < |ws| => Rec(first + i, ws[i].0, ws[i].1))
  }

  /** The state after these writes. */
  function Gather(s: State, ws: seq<(string, string)>): State {
    s.(history := s.history + Recs(|s.history|, ws), buffer := s.buffer + Recs(|s.history|, ws))
  }

  lemma GatherTwice(s: State, a: seq<(string, string)>, b: seq<(string, string)>)
    ensures Gather(Gather(s, a), b) == Gather(s, a + b)
  {
    var n := |s.history|;
    assert Recs(n, a + b) == Recs(n, a) + Recs(n + |a|, b);
    assert s.history + Recs(n, a) + Recs(n + |a|, b) == s.history + Recs(n, a + b);
    assert s.buffer + Recs(n, a) + Recs(n + |a|, b) == s.buffer + Recs(n, a + b);
  }

  lemma GatherNone(s: State)
    ensures Gather(s, []) == s
  {
    assert s.history + [] == s.history && s.buffer + [] == s.buffer;
  }

  lemma {:induction false} WritesRun(s: State, ws: seq<(string, string)>)
    ensures Run(s, Writes(ws)) == Gather(s, ws)
  {
    if ws == [] {
      GatherNone(s);
    } else {
      var init, last := ws[..|ws| - 1], ws[|ws| - 1];
      WritesRun(s, init);
      assert Writes(ws) == Writes(init) + [Write(last.0, last.1)];
      RunSnoc(s, Writes(init), Write(last.0, last.1));
      GatherOne(Gather(s, init), last);
      GatherTwice(s, init, [last]);
      assert ws == init + [last];
    }
  }

  lemma GatherOne(s: State, w: (string, string))
    ensures Next(s, Write(w.0, w.1)) == Gather(s, [w])
  {
    assert Recs(|s.history|, [w]) == [Rec(|s.history|, w.0, w.1)];
  }

  lemma WritesThen(s: State, env: LoneEnv, i: nat, step: Step)
    ensures Run(s, Then(env.Env().others(i), step)) == Next(Gather(s, env.writes(i)), step)
  {
    RunSnoc(s, Writes(env.writes(i)), step);
    WritesRun(s, env.writes(i));
  }

  /** All that others write before the `m` first points. */
  function Gathered(env: LoneEnv, m: nat): seq<(string, string)> {
    if m == 0 then [] else Gathered(env, m - 1) + env.writes(m - 1)
  }

  // ----- What a flush comes to -----

  ghost predicate Ready(s: State) {
    s.flushers == [Idle] && (!s.inTx ==> s.pending == [])
  }

  /** The state some way into a flush: the buffer taken, `m` points passed, these
      rows pending. */
  function Under(s: State, env: LoneEnv, m: nat, p: Flusher, rows: seq<Rec>, inTx: bool): State {
    Gather(s.(buffer := [], flushers := [p], pending := rows, inTx := inTx), Gathered(env, m))
  }

  lemma UnderMore(s: State, env: LoneEnv, m: nat, p: Flusher, rows: seq<Rec>, inTx: bool)
    ensures Gather(Under(s, env, m, p, rows, inTx), env.writes(m)) == Under(s, env, m + 1, p, rows, inTx)
  {
    GatherTwice(s.(buffer := [], flushers := [p], pending := rows, inTx := inTx), Gathered(env, m), env.writes(m));
  }

  lemma BeginTail(s: State, q: seq<Rec>, granted: bool)
    requires s.flushers == [Swapped(q)]
    ensures Next(s, Begin(0, granted))
            == if granted && !s.inTx then s.(flushers := [Inserting(q, q)], inTx := true)
               else s.(flushers := [Restoring(q)])
  {
  }

  lemma OpeningRun(s: State, env: LoneEnv)
    requires Ready(s) && s.buffer != []
    ensures Run(s, Opening(0, env.Env()))
            == if env.granted && !s.inTx then Under(s, env, 1, Inserting(s.buffer, s.buffer), [], true)
               else Under(s, env, 1, Restoring(s.buffer), s.pending, s.inTx)
  {
    OpeningInPieces(s, 0, env.Env());
    WritesRun(Next(s, Swap(0)), env.writes(0));
    GatherNone(s.(buffer := [], flushers := [Swapped(s.buffer)]));
    assert Next(s, Swap(0)) == Under(s, env, 0, Swapped(s.buffer), s.pending, s.inTx);
    UnderMore(s, env, 0, Swapped(s.buffer), s.pending, s.inTx);
    BeginTail(Under(s, env, 1, Swapped(s.buffer), s.pending, s.inTx), s.buffer, env.granted);
  }

  /** The state after INSERT number `k` failed, whether ROLLBACK succeeds or not. */
  function GivenUp(s: State, env: LoneEnv, k: nat): State
    requires k <= |s.buffer|
  {
    var (rows, stays) := if env.rollbackOk then ([], false) else (s.buffer[..k], true);
    var t := Under(s, env, k + 4, Idle, rows, stays);
    t.(buffer := t.buffer + s.buffer[k..], dropped := s.dropped + if env.rollbackOk then s.buffer[..k] else [])
  }

  lemma InsertTail(s: State, batch: seq<Rec>, queue: seq<Rec>)
    requires s.flushers == [Inserting(batch, queue)] && queue != [] && s.inTx
    ensures Next(s, Insert(0, true))
            == s.(flushers := [Inserting(batch, queue[1..])], pending := s.pending + [queue[0]])
  {
  }

  lemma OneInserted(s: State, env: LoneEnv, k: nat, t: State)
    requires 0 < k <= |s.buffer|
    requires t == Under(s, env, k, Inserting(s.buffer, s.buffer[k - 1..]), s.buffer[..k - 1], true)
    ensures Next(Gather(t, env.writes(k)), Insert(0, true))
            == Under(s, env, k + 1, Inserting(s.buffer, s.buffer[k..]), s.buffer[..k], true)
  {
    var q := s.buffer[k - 1..];
    UnderMore(s, env, k, Inserting(s.buffer, q), s.buffer[..k - 1], true);
    InsertTail(Under(s, env, k + 1, Inserting(s.buffer, q), s.buffer[..k - 1], true), s.buffer, q);
    assert q[1..] == s.buffer[k..] && s.buffer[..k - 1] + [q[0]] == s.buffer[..k];
  }

  lemma {:induction false} InsertedRun(s: State, env: LoneEnv, t: State, k: nat)
    requires t == Under(s, env, 1, Inserting(s.buffer, s.buffer), [], true) && k <= |s.buffer|
    ensures Run(t, Insertions(0, env.Env(), k))
            == Under(s, env, k + 1, Inserting(s.buffer, s.buffer[k..]), s.buffer[..k], true)
  {
    if k == 0 {
      assert s.buffer[0..] == s.buffer && s.buffer[..0] == [];
    } else {
      InsertedRun(s, env, t, k - 1);
      InsertionStep(t, 0, env.Env(), k);
      WritesRun(Run(t, Insertions(0, env.Env(), k - 1)), env.writes(k));
      OneInserted(s, env, k, Run(t, Insertions(0, env.Env(), k - 1)));
    }
  }

  lemma RestoreTail(s: State, q: seq<Rec>)
    requires s.flushers == [Restoring(q)]
    ensures Next(s, Restore(0)) == s.(flushers := [Idle], buffer := q, dropped := s.dropped + s.buffer)
  {
  }

  lemma RefusedRun(s: State, env: LoneEnv, t: State)
    requires t == Under(s, env, 1, Restoring(s.buffer), s.pending, s.inTx)
    ensures Run(t, Then(env.Env().others(1), Restore(0)))
            == var t' := Under(s, env, 2, Idle, s.pending, s.inTx);
               t'.(buffer := s.buffer, dropped := s.dropped + t'.buffer)
  {
    WritesThen(t, env, 1, Restore(0));
    UnderMore(s, env, 1, Restoring(s.buffer), s.pending, s.inTx);
    RestoreTail(Under(s, env, 2, Restoring(s.buffer), s.pending, s.inTx), s.buffer);
  }

  lemma RollbackTail(s: State, batch: seq<Rec>, queue: seq<Rec>, ok: bool)
    requires s.flushers == [RollingBack(batch, queue)] && s.inTx
    ensures Next(s, Rollback(0, ok))
            == if ok then s.(flushers := [Returning(queue)], dropped := s.dropped + s.pending,
                             pending := [], inTx := false)
               else s.(flushers := [Returning(queue)])
  {
  }

  lemma FailTail(s: State, batch: seq<Rec>, queue: seq<Rec>)
    requires s.flushers == [Inserting(batch, queue)] && queue != []
    ensures Next(s, Insert(0, false)) == s.(flushers := [RollingBack(batch, queue)])
  {
  }

  lemma ReturnTail(s: State, queue: seq<Rec>)
    requires s.flushers == [Returning(queue)]
    ensures Next(s, Return(0)) == s.(flushers := [Idle], buffer := s.buffer + queue)
  {
  }

  lemma GivingUp(s: State, env: LoneEnv, k: nat, q: seq<Rec>, done: seq<Rec>)
    requires k < |s.buffer| && q == s.buffer[k..] && done == s.buffer[..k]
    ensures var inside := Under(s, env, k + 3, RollingBack(s.buffer, q), done, true);
            Next(Gather(Next(inside, Rollback(0, env.rollbackOk)), env.writes(k + 3)), Return(0)) == GivenUp(s, env, k)
  {
    RollbackTail(Under(s, env, k + 3, RollingBack(s.buffer, q), done, true), s.buffer, q, env.rollbackOk);
    var s' := if env.rollbackOk then s.(dropped := s.dropped + done) else s;
    var (rows, stays) := if env.rollbackOk then ([], false) else (done, true);
    UnderMore(s', env, k + 3, Returning(q), rows, stays);
    ReturnTail(Under(s', env, k + 4, Returning(q), rows, stays), q);
    assert s.dropped + [] == s.dropped;
  }

  lemma LoneFailing(t: State, env: LoneEnv, k: nat)
    ensures Run(t, Failing(0, env.Env(), k))
            == Next(Gather(Next(Gather(Next(Gather(t, env.writes(k + 1)), Insert(0, false)),
                    env.writes(k + 2)), Rollback(0, env.rollbackOk)), env.writes(k + 3)), Return(0))
  {
    FailingInPieces(t, 0, env.Env(), k);
    WritesRun(t, env.writes(k + 1));
    var t1 := Next(Gather(t, env.writes(k + 1)), Insert(0, false));
    WritesRun(t1, env.writes(k + 2));
    WritesRun(Next(Gather(t1, env.writes(k + 2)), Rollback(0, env.rollbackOk)), env.writes(k + 3));
  }

  /** From a failed INSERT on, with `k` rows of the batch inserted. */
  lemma FailingRun(s: State, env: LoneEnv, t: State, k: nat)
    requires k < |s.buffer|
    requires t == Under(s, env, k + 1, Inserting(s.buffer, s.buffer[k..]), s.buffer[..k], true)
    ensures Run(t, Failing(0, env.Env(), k)) == GivenUp(s, env, k)
  {
    var q, done := s.buffer[k..], s.buffer[..k];
    LoneFailing(t, env, k);
    UnderMore(s, env, k + 1, Inserting(s.buffer, q), done, true);
    FailTail(Under(s, env, k + 2, Inserting(s.buffer, q), done, true), s.buffer, q);
    UnderMore(s, env, k + 2, RollingBack(s.buffer, q), done, true);
    GivingUp(s, env, k, q, done);
  }

  lemma CommitTail(s: State, batch: seq<Rec>, result: CommitResult)
    requires s.flushers == [Inserting(batch, [])] && s.inTx
    ensures Next(s, Commit(0, result))
            == match result
               case Committed =>
                 s.(flushers := [Idle], committed := s.committed + s.pending, pending := [], inTx := false)
               case RolledBack => s.(flushers := [Idle], dropped := s.dropped + s.pending, pending := [], inTx := false)
               case LeftOpen => s.(flushers := [Idle])
  {
  }

  function Ended(s: State, env: LoneEnv): State {
    var t := Under(s, env, |s.buffer| + 2, Idle, [], false);
    match env.commit
    case Committed => t.(committed := s.committed + s.buffer)
    case RolledBack => t.(dropped := s.dropped + s.buffer)
    case LeftOpen => t.(pending := s.buffer, inTx := true)
  }

  lemma CommitRun(s: State, env: LoneEnv, t: State)
    requires t == Under(s, env, |s.buffer| + 1, Inserting(s.buffer, []), s.buffer, true)
    ensures Run(t, Then(env.Env().others(|s.buffer| + 1), Commit(0, env.commit))) == Ended(s, env)
  {
    var n := |s.buffer|;
    WritesThen(t, env, n + 1, Commit(0, env.commit));
    UnderMore(s, env, n + 1, Inserting(s.buffer, []), s.buffer, true);
    CommitTail(Under(s, env, n + 2, Inserting(s.buffer, []), s.buffer, true), s.buffer, env.commit);
  }

  lemma EndingRun(s: State, env: LoneEnv, t: State, k: nat)
    requires k <= |s.buffer|
    requires t == Under(s, env, k + 1, Inserting(s.buffer, s.buffer[k..]), s.buffer[..k], true)
    ensures Run(t, Ending(0, env.Env(), k, |s.buffer|)) == if k < |s.buffer| then GivenUp(s, env, k) else Ended(s, env)
  {
    if k < |s.buffer| {
      FailingRun(s, env, t, k);
    } else {
      assert s.buffer[..k] == s.buffer && s.buffer[k..] == [];
      CommitRun(s, env, t);
    }
  }

  lemma InsideRun(s: State, env: LoneEnv, t: State)
    requires t == Under(s, env, 1, Inserting(s.buffer, s.buffer), [], true)
    ensures var k := FirstBad(env.insertOk, 0, |s.buffer|);
            Run(t, Inside(0, env.Env(), |s.buffer|)) == if k < |s.buffer| then GivenUp(s, env, k) else Ended(s, env)
  {
    var k := FirstBad(env.insertOk, 0, |s.buffer|);
    InsertedRun(s, env, t, k);
    RunAppend(t, Insertions(0, env.Env(), k), Ending(0, env.Env(), k, |s.buffer|));
    EndingRun(s, env, Run(t, Insertions(0, env.Env(), k)), k);
  }

  /** The state a flush leaves, in one piece. */
  function Flushed(s: State, env: LoneEnv): State {
    if s.buffer == [] then s
    else if !env.granted || s.inTx then
      var t := Under(s, env, 2, Idle, s.pending, s.inTx);
      t.(buffer := s.buffer, dropped := s.dropped + t.buffer)
    else
      var k := FirstBad(env.insertOk, 0, |s.buffer|);
      if k < |s.buffer| then GivenUp(s, env, k) else Ended(s, env)
  }

  lemma LoneRefused(s: State, env: LoneEnv)
    requires Ready(s) && s.buffer != []
    ensures Refused(s, 0, env.Env()) <==> !env.granted || s.inTx
  {
    WritesRun(Next(s, Swap(0)), env.writes(0));
  }

  /** A flush is the run of its steps, taken in one piece. */
  lemma FlushIsRun(s: State, env: LoneEnv)
    requires Ready(s)
    ensures Run(s, Script(s, 0, env.Env())) == Flushed(s, env) && Ready(Flushed(s, env))
  {
    if s.buffer != [] {
      LoneRefused(s, env);
      OpeningRun(s, env);
      if !env.granted || s.inTx {
        RunAppend(s, Opening(0, env.Env()), Then(env.Env().others(1), Restore(0)));
        RefusedRun(s, env, Run(s, Opening(0, env.Env())));
      } else {
        RunAppend(s, Opening(0, env.Env()), Inside(0, env.Env(), |s.buffer|));
        InsideRun(s, env, Run(s, Opening(0, env.Env())));
      }
    }
  }

  // ----- What a flush loses -----

  function FlushLosses(s: State, env: LoneEnv): seq<Rec> {
    var n := |s.buffer|;
    var k := FirstBad(env.insertOk, 0, n);
    if !env.granted || s.inTx then Recs(|s.history|, env.writes(0) + env.writes(1))
    else if k < n then s.buffer[..k]
    else if env.commit.Committed? then []
    else s.buffer
  }

  lemma FlushedHolds(s: State, env: LoneEnv, r: Rec)
    requires Ready(s) && s.buffer != []
    ensures var t := Flushed(s, env);
            r in t.dropped || r in t.pending <==> r in s.dropped || r in s.pending || r in FlushLosses(s, env)
  {
    assert Gathered(env, 2) == Gathered(env, 1) + env.writes(1) && Gathered(env, 1) == [] + env.writes(0);
    assert Gathered(env, 2) == env.writes(0) + env.writes(1);
    assert [] + FlushLosses(s, env) == FlushLosses(s, env);
  }

  lemma AtRestLost(steps: seq<Step>, r: Rec)
    requires Run(Initial(1), steps).flushers == [Idle]
    ensures var s := Run(Initial(1), steps); Ready(s) && (Lost(s, r) <==> r in s.dropped || r in s.pending)
  {
    RunKeepsLock(1, steps);
    LostExactly(1, steps, r);
  }

  /** A record is lost after a flush of a non-empty buffer, in whatever state it was
      begun, iff it was lost before or is one of these, none of which was. */
  lemma FlushLosesThese(steps: seq<Step>, s: State, env: LoneEnv, r: Rec)
    requires s == Run(Initial(1), steps) && s.flushers == [Idle] && s.buffer != []
    ensures Lost(Run(s, Script(s, 0, env.Env())), r) <==> Lost(s, r) || r in FlushLosses(s, env)
    ensures r in FlushLosses(s, env) ==> !Lost(s, r)
  {
    AtRestLost(steps, r);
    FlushIsRun(s, env);
    FlushedHolds(s, env, r);
    RunAppend(Initial(1), steps, Script(s, 0, env.Env()));
    AtRestLost(steps + Script(s, 0, env.Env()), r);
    RunNumbers(1, steps);
  }

  /** So a flush loses records iff BEGIN is refused while others write, or a rollback,
      even one that fails, undoes rows inserted before a failing one, or COMMIT fails. */
  lemma LoneFlushLosesExactly(steps: seq<Step>, s: State, env: LoneEnv)
    requires s == Run(Initial(1), steps) && s.flushers == [Idle] && s.buffer != []
    ensures var refused := !env.granted || s.inTx;
            (exists r :: Lost(Run(s, Script(s, 0, env.Env())), r) && !Lost(s, r))
            <==> if refused then env.writes(0) + env.writes(1) != []
                 else FailsLate(env.Env(), |s.buffer|)
                      || (AllInserted(env.Env(), |s.buffer|) && env.commit != Committed)
  {
    var losses := FlushLosses(s, env);
    forall r ensures Lost(Run(s, Script(s, 0, env.Env())), r) && !Lost(s, r) <==> r in losses {
      FlushLosesThese(steps, s, env, r);
    }
    FirstBadMeans(env.Env(), |s.buffer|);
    if losses != [] { assert losses[0] in losses; }
  }

  /** And it leaves the connection in a transaction that nobody will end iff it
      found it so, or an INSERT fails and so does the ROLLBACK, or COMMIT fails and
      leaves its transaction open. */
  lemma FlushSticksExactly(s: State, env: LoneEnv)
    requires Ready(s) && s.buffer != []
    ensures Stuck(Run(s, Script(s, 0, env.Env())))
            <==> s.inTx
                 || (env.granted
                     && if AllInserted(env.Env(), |s.buffer|) then env.commit.LeftOpen? else !env.rollbackOk)
  {
    FlushIsRun(s, env);
    FirstBadMeans(env.Env(), |s.buffer|);
  }
}
