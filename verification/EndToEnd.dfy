/** From the session manager to the database: what the table tells about a server
    that has stopped. */
module EndToEnd {
  import opened Sessions
  import opened SessionLog
  import opened Environment
  import opened LoopSteps
  import opened ShutdownSafety
  import opened CdrText
  import Db = CdrBatching

  // ----- Rows -----

  /** How many rows tell this of a subscriber. */
  function RowCount(rows: seq<Db.Rec>, imsi: Imsi, action: Action): nat {
    if rows == [] then 0
    else
      var r := rows[|rows| - 1];
      RowCount(rows[..|rows| - 1], imsi, action) + if r.imsi == imsi && r.action == ActionText(action) then 1 else 0
  }

  lemma RowCountSnoc(rows: seq<Db.Rec>, r: Db.Rec, imsi: Imsi, action: Action)
    ensures RowCount(rows + [r], imsi, action)
            == RowCount(rows, imsi, action) + if r.imsi == imsi && r.action == ActionText(action) then 1 else 0
  {
    assert (rows + [r])[..|rows|] == rows;
  }

  lemma {:induction false} RowCountAdd(a: seq<Db.Rec>, b: seq<Db.Rec>, imsi: Imsi, action: Action)
    ensures RowCount(a + b, imsi, action) == RowCount(a, imsi, action) + RowCount(b, imsi, action)
  {
    if b == [] {
      assert a + b == a;
    } else {
      var init, last := b[..|b| - 1], b[|b| - 1];
      RowCountAdd(a, init, imsi, action);
      RowCountSnoc(a + init, last, imsi, action);
      assert a + b == a + init + [last];
    }
  }

  lemma RowCountWithout(rows: seq<Db.Rec>, r: Db.Rec, imsi: Imsi, action: Action) returns (rest: seq<Db.Rec>)
    requires r in rows
    ensures multiset(rest) == multiset(rows) - multiset{r}
    ensures RowCount(rows, imsi, action) == RowCount(rest + [r], imsi, action)
  {
    var i :| 0 <= i < |rows| && rows[i] == r;
    var before, after := rows[..i], rows[i + 1..];
    rest := before + after;
    assert rows == before + [r] + after;
    RowCountAdd(before + [r], after, imsi, action);
    RowCountAdd(before, [r], imsi, action);
    RowCountAdd(rest, [r], imsi, action);
    RowCountAdd(before, after, imsi, action);
  }

  /** The order of the rows does not matter. */
  lemma {:induction false} RowCountPermuted(a: seq<Db.Rec>, b: seq<Db.Rec>, imsi: Imsi, action: Action)
    requires multiset(a) == multiset(b)
    ensures RowCount(a, imsi, action) == RowCount(b, imsi, action)
    decreases |a|
  {
    if a == [] {
      assert |b| == |multiset(b)| == 0;
    } else {
      var init, r := a[..|a| - 1], a[|a| - 1];
      assert a == init + [r];
      assert r in multiset(b);
      var rest := RowCountWithout(b, r, imsi, action);
      assert multiset(init) == multiset(a) - multiset{r};
      RowCountPermuted(init, rest, imsi, action);
      RowCountSnoc(init, r, imsi, action);
      RowCountSnoc(rest, r, imsi, action);
    }
  }

  // ----- The log and the table -----

  /** The database writer was given the manager's records, one by one. */
  ghost predicate Fed(history: seq<Db.Rec>, log: seq<Cdr>) {
    && |history| == |log|
    && forall i :: 0 <= i < |log| ==> history[i] == Db.Rec(i, log[i].imsi, ActionText(log[i].action))
  }

  lemma ActionTextsDiffer(a: Action, b: Action)
    ensures ActionText(a) == ActionText(b) <==> a == b
  {
    assert ActionText(CREATED)[0] == 'C' && ActionText(DELETED)[0] == 'D';
    assert ActionText(REJECTED)[0] == 'R' && ActionText(ERROR)[0] == 'E';
  }

  lemma {:induction false} FedCounts(history: seq<Db.Rec>, log: seq<Cdr>, imsi: Imsi, action: Action)
    requires Fed(history, log)
    ensures RowCount(history, imsi, action) == CountFor(log, imsi, action)
  {
    if log != [] {
      var n := |log| - 1;
      FedCounts(history[..n], log[..n], imsi, action);
      ActionTextsDiffer(log[n].action, action);
    }
  }

  /** No thread is flushing and nothing waits to be flushed. */
  ghost predicate AtRest(s: Db.State) {
    s.buffer == [] && forall f :: 0 <= f < |s.flushers| ==> s.flushers[f].Idle?
  }

  lemma AtRestAccounted(flushers: nat, steps: seq<Db.Step>, s: Db.State)
    requires s == Db.Run(Db.Initial(flushers), steps) && AtRest(s)
    ensures multiset(s.committed + (s.dropped + s.pending)) == multiset(s.history)
  {
    forall r: Db.Rec ensures multiset(s.committed + (s.dropped + s.pending))[r] == multiset(s.history)[r] {
      Db.RunConserves(flushers, steps, r);
      Db.IdleHoldNothing(s.flushers, r);
      Db.CopiesAdd(s.committed, s.dropped + s.pending, r);
      Db.CopiesAdd(s.dropped, s.pending, r);
    }
  }

  /** A subscriber was let in as often as let go, as the rows tell it. */
  predicate Balanced(rows: seq<Db.Rec>, imsi: Imsi) {
    RowCount(rows, imsi, CREATED) == RowCount(rows, imsi, DELETED)
  }

  /** Once the server has stopped and its records have gone through any number of
      flushing threads with any failures, the rows in the table are balanced for a
      subscriber iff those lost on the way are. */
  lemma TableBalancesExactly(
      c: Settings, loop: Loop, us: seq<Micro>, cs: seq<Choice>, blacklist: set<Imsi>, w: World,
      flushers: nat, steps: seq<Db.Step>, s: Db.State, imsi: Imsi)
    requires Reachable(c, loop, us, cs, blacklist, w) && c.timeout > 0 && loop.phase == STOPPED
    requires s == Db.Run(Db.Initial(flushers), steps) && AtRest(s) && Fed(s.history, loop.Mgr().log)
    ensures Balanced(s.committed, imsi) <==> Balanced(s.dropped + s.pending, imsi)
    ensures s.dropped + s.pending == [] ==> Balanced(s.committed, imsi)
  {
    StoppedIsClean(c, loop, us, cs, blacklist, w, imsi);
    AtRestAccounted(flushers, steps, s);
    forall action: Action
      ensures RowCount(s.committed, imsi, action) + RowCount(s.dropped + s.pending, imsi, action)
              == CountFor(loop.Mgr().log, imsi, action)
    {
      RowCountAdd(s.committed, s.dropped + s.pending, imsi, action);
      RowCountPermuted(s.committed + (s.dropped + s.pending), s.history, imsi, action);
      FedCounts(s.history, loop.Mgr().log, imsi, action);
    }
  }

  lemma SomeRow(rows: seq<Db.Rec>)
    requires rows != []
    ensures exists r :: r in rows
  {
    assert rows[0] in rows;
  }

  /** So they are balanced after a run of any number of flushers without failing INSERT
      or COMMIT in which nobody wrote between a swap and the restoring of its refused
      BEGIN. */
  lemma QuietTableBalances(
      c: Settings, loop: Loop, us: seq<Micro>, cs: seq<Choice>, blacklist: set<Imsi>, w: World,
      flushers: nat, steps: seq<Db.Step>, s: Db.State, imsi: Imsi)
    requires Reachable(c, loop, us, cs, blacklist, w) && c.timeout > 0 && loop.phase == STOPPED
    requires s == Db.Run(Db.Initial(flushers), steps) && AtRest(s) && Fed(s.history, loop.Mgr().log)
    requires (forall i :: 0 <= i < |steps| ==> Db.Clean(steps[i])) && Db.Quiet(flushers, steps)
    ensures Balanced(s.committed, imsi)
  {
    var lost := s.dropped + s.pending;
    Db.QuietLosesNothing(flushers, steps);
    forall r ensures r !in lost { Db.LostExactly(flushers, steps, r); }
    if lost != [] { SomeRow(lost); }
    TableBalancesExactly(c, loop, us, cs, blacklist, w, flushers, steps, s, imsi);
  }

  /** With one flushing thread, no failing INSERT or COMMIT and no write between a
      swap and the restoring of its refused BEGIN, a successful last flush leaves
      the log of the stopped server in the table, row by row, and so balanced. */
  lemma LastFlushTellsAll(
      c: Settings, loop: Loop, us: seq<Micro>, cs: seq<Choice>, blacklist: set<Imsi>, w: World,
      steps: seq<Db.Step>, s: Db.State, imsi: Imsi)
    requires Reachable(c, loop, us, cs, blacklist, w) && c.timeout > 0 && loop.phase == STOPPED
    requires (forall i :: 0 <= i < |steps| ==> Db.Clean(steps[i])) && Db.Quiet(1, steps)
    requires s == Db.Run(Db.Initial(1), steps) && s.flushers == [Db.Idle] && !s.inTx
    requires Fed(s.history, loop.Mgr().log)
    ensures var rows := Db.Run(s, Db.GoodFlush(s)).committed; Fed(rows, loop.Mgr().log) && Balanced(rows, imsi)
  {
    StoppedIsClean(c, loop, us, cs, blacklist, w, imsi);
    Db.FinalFlushCommitsAll(steps, s);
    FedCounts(s.history, loop.Mgr().log, imsi, CREATED);
    FedCounts(s.history, loop.Mgr().log, imsi, DELETED);
  }
}
