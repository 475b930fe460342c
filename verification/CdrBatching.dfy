/** Batches of call records on their way to the database, with any number of
    threads flushing at once over one shared connection. */
module CdrBatching {
  /** `id` tells apart records with equal contents: the place in the history. */
  datatype Rec = Rec(id: nat, imsi: string, action: string)

  /** Where a flushing thread is, with what is left in its local queue and, inside
      its transaction, the whole batch it took. */
  datatype Flusher =
    | Idle
    | Swapped(queue: seq<Rec>)                             // before BEGIN
    | Restoring(queue: seq<Rec>)                           // BEGIN refused
    | Inserting(batch: seq<Rec>, queue: seq<Rec>)          // BEGIN granted
    | RollingBack(batch: seq<Rec>, queue: seq<Rec>)        // an INSERT failed
    | Returning(queue: seq<Rec>)                           // ROLLBACK was issued
  {
    function Local(): seq<Rec> {
      if Idle? then [] else queue
    }
    predicate InTransaction() {
      Inserting? || RollingBack?
    }
  }

  datatype State = State(
    history: seq<Rec>,         // everything ever given to the writer
    buffer: seq<Rec>,
    flushers: seq<Flusher>,
    committed: seq<Rec>,
    pending: seq<Rec>,         // inserted in the open transaction
    inTx: bool,
    dropped: seq<Rec>)         // what the failure paths lost

  datatype CommitResult = Committed | RolledBack | LeftOpen

  /** One step between two points where threads may interleave. */
  datatype Step =
    | Write(imsi: string, action: string)
    | Swap(f: nat)
    | Begin(f: nat, granted: bool)
    | Restore(f: nat)
    | Insert(f: nat, ok: bool)
    | Commit(f: nat, result: CommitResult)
    | Rollback(f: nat, ok: bool)
    | Return(f: nat)

  function Initial(flushers: nat): State {
    State([], [], seq(flushers, _ => Idle), [], [], false, [])
  }

  function At(s: State, f: nat): Flusher {
    if f < |s.flushers| then s.flushers[f] else Idle
  }

  function Move(s: State, f: nat, p: Flusher): State {
    if f < |s.flushers| then s.(flushers := s.flushers[f := p]) else s
  }

  // A step that does not fit where its thread is does nothing.

  function DoWrite(s: State, imsi: string, action: string): State {
    var r := Rec(|s.history|, imsi, action);
    s.(history := s.history + [r], buffer := s.buffer + [r])
  }

  /** A flush of an empty buffer is over before it begins. */
  predicate Takes(s: State, f: nat) {
    f < |s.flushers| && s.flushers[f].Idle? && s.buffer != []
  }

  function DoSwap(s: State, f: nat): State {
    if Takes(s, f) then
      Move(s, f, Swapped(s.buffer)).(buffer := [])
    else s
  }

  /** The connection refuses BEGIN inside a transaction. */
  function DoBegin(s: State, f: nat, granted: bool): State {
    match At(s, f)
    case Swapped(q) =>
      if granted && !s.inTx then Move(s, f, Inserting(q, q)).(inTx := true) else Move(s, f, Restoring(q))
    case _ => s
  }

  /** The queue is swapped back, and what it is swapped with is lost. */
  function DoRestore(s: State, f: nat): State {
    match At(s, f)
    case Restoring(q) => Move(s, f, Idle).(buffer := q, dropped := s.dropped + s.buffer)
    case _ => s
  }

  /** Outside a transaction an INSERT would commit by itself. */
  function DoInsert(s: State, f: nat, ok: bool): State {
    match At(s, f)
    case Inserting(batch, q) =>
      if q == [] then s
      else if !ok then Move(s, f, RollingBack(batch, q))
      else if s.inTx then Move(s, f, Inserting(batch, q[1..])).(pending := s.pending + [q[0]])
      else Move(s, f, Inserting(batch, q[1..])).(committed := s.committed + [q[0]])
    case _ => s
  }

  function DoCommit(s: State, f: nat, result: CommitResult): State {
    match At(s, f)
    case Inserting(batch, q) =>
      if q != [] then s
      else if !s.inTx || result.LeftOpen? then Move(s, f, Idle)
      else if result.Committed? then
        Move(s, f, Idle).(committed := s.committed + s.pending, pending := [], inTx := false)
      else Move(s, f, Idle).(dropped := s.dropped + s.pending, pending := [], inTx := false)
    case _ => s
  }

  function DoRollback(s: State, f: nat, ok: bool): State {
    match At(s, f)
    case RollingBack(batch, q) =>
      if ok && s.inTx then Move(s, f, Returning(q)).(dropped := s.dropped + s.pending, pending := [], inTx := false)
      else Move(s, f, Returning(q))
    case _ => s
  }

  /** What is left goes behind what was buffered meanwhile. */
  function DoReturn(s: State, f: nat): State {
    match At(s, f)
    case Returning(q) => Move(s, f, Idle).(buffer := s.buffer + q)
    case _ => s
  }

  function Next(s: State, step: Step): State {
    match step
    case Write(imsi, action) => DoWrite(s, imsi, action)
    case Swap(f) => DoSwap(s, f)
    case Begin(f, granted) => DoBegin(s, f, granted)
    case Restore(f) => DoRestore(s, f)
    case Insert(f, ok) => DoInsert(s, f, ok)
    case Commit(f, result) => DoCommit(s, f, result)
    case Rollback(f, ok) => DoRollback(s, f, ok)
    case Return(f) => DoReturn(s, f)
  }

  function Run(s: State, steps: seq<Step>): State {
    if steps == [] then s else Next(Run(s, steps[..|steps| - 1]), steps[|steps| - 1])
  }

  lemma RunSnoc(s: State, steps: seq<Step>, step: Step)
    ensures Run(s, steps + [step]) == Next(Run(s, steps), step)
  {
    assert (steps + [step])[..|steps|] == steps;
  }

  lemma AppendSnoc(a: seq<Step>, b: seq<Step>)
    requires b != []
    ensures (a + b)[..|a + b| - 1] == a + b[..|b| - 1] && (a + b)[|a + b| - 1] == b[|b| - 1]
  {
  }

  lemma {:induction false} RunAppend(s: State, a: seq<Step>, b: seq<Step>)
    ensures Run(s, a + b) == Run(Run(s, a), b)
  {
    if b == [] {
      assert a + b == a;
    } else {
      AppendSnoc(a, b);
      RunAppend(s, a, b[..|b| - 1]);
    }
  }

  // ----- Conservation -----

  function Copies(rs: seq<Rec>, r: Rec): nat {
    multiset(rs)[r]
  }

  function InFlight(flushers: seq<Flusher>, r: Rec): nat {
    if flushers == [] then 0
    else InFlight(flushers[..|flushers| - 1], r) + Copies(flushers[|flushers| - 1].Local(), r)
  }

  /** How often a record is anywhere: in the table, in the open transaction, in a
      thread's queue, in the buffer or in the ledger. */
  function Everywhere(s: State, r: Rec): nat {
    Copies(s.committed, r) + Copies(s.pending, r) + InFlight(s.flushers, r) + Copies(s.buffer, r) + Copies(s.dropped, r)
  }

  lemma InFlightSnoc(flushers: seq<Flusher>, p: Flusher, r: Rec)
    ensures InFlight(flushers + [p], r) == InFlight(flushers, r) + Copies(p.Local(), r)
  {
    assert (flushers + [p])[..|flushers|] == flushers;
  }

  lemma {:induction false} InFlightMove(flushers: seq<Flusher>, f: nat, p: Flusher, r: Rec)
    requires f < |flushers|
    ensures InFlight(flushers[f := p], r) + Copies(flushers[f].Local(), r)
            == InFlight(flushers, r) + Copies(p.Local(), r)
  {
    var n := |flushers| - 1;
    var before, last := flushers[..n], flushers[n];
    assert flushers == before + [last];
    InFlightSnoc(before, last, r);
    if f == n {
      assert flushers[f := p] == before + [p];
      InFlightSnoc(before, p, r);
    } else {
      assert flushers[f := p] == before[f := p] + [last];
      InFlightSnoc(before[f := p], last, r);
      InFlightMove(before, f, p, r);
    }
  }

  lemma CopiesAdd(a: seq<Rec>, b: seq<Rec>, r: Rec)
    ensures Copies(a + b, r) == Copies(a, r) + Copies(b, r)
  {
  }

  lemma CopiesCut(q: seq<Rec>, r: Rec)
    requires q != []
    ensures Copies(q, r) == Copies([q[0]], r) + Copies(q[1..], r)
  {
    assert q == [q[0]] + q[1..];
  }

  /** The copies of a record changed as the history did. */
  ghost predicate Balanced(s: State, s': State, r: Rec) {
    Everywhere(s', r) + Copies(s.history, r) == Everywhere(s, r) + Copies(s'.history, r)
  }

  lemma WriteBalanced(s: State, imsi: string, action: string, r: Rec)
    ensures Balanced(s, Next(s, Write(imsi, action)), r)
  {
    CopiesAdd(s.buffer, [Rec(|s.history|, imsi, action)], r);
    CopiesAdd(s.history, [Rec(|s.history|, imsi, action)], r);
  }

  lemma SwapBalanced(s: State, f: nat, r: Rec)
    ensures Balanced(s, Next(s, Swap(f)), r)
  {
    if f < |s.flushers| { InFlightMove(s.flushers, f, Swapped(s.buffer), r); }
  }

  lemma BeginBalanced(s: State, f: nat, granted: bool, r: Rec)
    ensures Balanced(s, Next(s, Begin(f, granted)), r)
  {
    if At(s, f).Swapped? { InFlightMove(s.flushers, f, At(DoBegin(s, f, granted), f), r); }
  }

  lemma RestoreBalanced(s: State, f: nat, r: Rec)
    ensures Balanced(s, Next(s, Restore(f)), r)
  {
    CopiesAdd(s.dropped, s.buffer, r);
    if At(s, f).Restoring? { InFlightMove(s.flushers, f, Idle, r); }
  }

  lemma InsertBalanced(s: State, f: nat, ok: bool, r: Rec)
    ensures Balanced(s, DoInsert(s, f, ok), r)
  {
    match At(s, f)
    case Inserting(batch, q) =>
      if q != [] {
        if ok {
          CopiesCut(q, r);
          CopiesAdd(if s.inTx then s.pending else s.committed, [q[0]], r);
          InFlightMove(s.flushers, f, Inserting(batch, q[1..]), r);
        } else {
          InFlightMove(s.flushers, f, RollingBack(batch, q), r);
        }
      }
    case _ =>
  }

  lemma CommitBalanced(s: State, f: nat, result: CommitResult, r: Rec)
    ensures Balanced(s, DoCommit(s, f, result), r)
  {
    if At(s, f).Inserting? && At(s, f).queue == [] {
      InFlightMove(s.flushers, f, Idle, r);
      if s.inTx && result == Committed {
        CopiesAdd(s.committed, s.pending, r);
      } else if s.inTx && result == RolledBack {
        CopiesAdd(s.dropped, s.pending, r);
      }
    }
  }

  lemma RollbackBalanced(s: State, f: nat, ok: bool, r: Rec)
    ensures Balanced(s, DoRollback(s, f, ok), r)
  {
    match At(s, f)
    case RollingBack(batch, q) =>
      CopiesAdd(s.dropped, s.pending, r);
      InFlightMove(s.flushers, f, Returning(q), r);
    case _ =>
  }

  lemma ReturnBalanced(s: State, f: nat, r: Rec)
    ensures Balanced(s, Next(s, Return(f)), r)
  {
    if At(s, f).Returning? {
      CopiesAdd(s.buffer, At(s, f).queue, r);
      InFlightMove(s.flushers, f, Idle, r);
    }
  }

  lemma StepBalanced(s: State, step: Step, r: Rec)
    ensures Balanced(s, Next(s, step), r)
  {
    match step
    case Write(imsi, action) => WriteBalanced(s, imsi, action, r);
    case Swap(f) => SwapBalanced(s, f, r);
    case Begin(f, granted) => BeginBalanced(s, f, granted, r);
    case Restore(f) => RestoreBalanced(s, f, r);
    case Insert(f, ok) => InsertBalanced(s, f, ok, r);
    case Commit(f, result) => CommitBalanced(s, f, result, r);
    case Rollback(f, ok) => RollbackBalanced(s, f, ok, r);
    case Return(f) => ReturnBalanced(s, f, r);
  }

  lemma {:induction false} InitialInFlight(flushers: nat, r: Rec)
    ensures InFlight(Initial(flushers).flushers, r) == 0
  {
    if flushers > 0 {
      InitialInFlight(flushers - 1, r);
      assert Initial(flushers).flushers[..flushers - 1] == Initial(flushers - 1).flushers;
    }
  }

  lemma {:induction false} RunConserves(flushers: nat, steps: seq<Step>, r: Rec)
    ensures var s := Run(Initial(flushers), steps); Everywhere(s, r) == Copies(s.history, r)
  {
    if steps == [] {
      InitialInFlight(flushers, r);
    } else {
      RunConserves(flushers, steps[..|steps| - 1], r);
      StepBalanced(Run(Initial(flushers), steps[..|steps| - 1]), steps[|steps| - 1], r);
    }
  }

  ghost predicate Numbered(rs: seq<Rec>) {
    forall i :: 0 <= i < |rs| ==> rs[i].id == i
  }

  lemma StepNumbers(s: State, step: Step)
    requires Numbered(s.history)
    ensures Numbered(Next(s, step).history)
  {
  }

  lemma {:induction false} RunNumbers(flushers: nat, steps: seq<Step>)
    ensures Numbered(Run(Initial(flushers), steps).history)
  {
    if steps != [] {
      RunNumbers(flushers, steps[..|steps| - 1]);
      StepNumbers(Run(Initial(flushers), steps[..|steps| - 1]), steps[|steps| - 1]);
    }
  }

  lemma {:induction false} DistinctIdsOnce(rs: seq<Rec>, r: Rec)
    requires Numbered(rs)
    ensures Copies(rs, r) == if r in rs then 1 else 0
  {
    if rs != [] {
      var n := |rs| - 1;
      DistinctIdsOnce(rs[..n], r);
      assert rs == rs[..n] + [rs[n]];
      assert r == rs[n] ==> r !in rs[..n];
    }
  }

  /** In every reachable state, for any number of flushers and any failures, each
      record written is in exactly one place and nothing else is anywhere: none
      is committed twice, none invented. */
  lemma ExactlyOnePlace(flushers: nat, steps: seq<Step>, r: Rec)
    ensures var s := Run(Initial(flushers), steps);
            && Everywhere(s, r) == (if r in s.history then 1 else 0)
            && Copies(s.committed, r) <= 1
            && (r in s.committed ==> r in s.history && r !in s.pending && r !in s.buffer && r !in s.dropped)
  {
    RunConserves(flushers, steps, r);
    RunNumbers(flushers, steps);
    DistinctIdsOnce(Run(Initial(flushers), steps).history, r);
  }

  lemma {:induction false} IdleHoldNothing(flushers: seq<Flusher>, r: Rec)
    requires forall f :: 0 <= f < |flushers| ==> flushers[f].Idle?
    ensures InFlight(flushers, r) == 0
  {
    if flushers != [] { IdleHoldNothing(flushers[..|flushers| - 1], r); }
  }

  /** At rest, with every thread idle and nothing buffered or pending, the table
      holds each record of the history once, except those in the ledger. */
  lemma AtRestAllCommitted(flushers: nat, steps: seq<Step>, r: Rec)
    requires var s := Run(Initial(flushers), steps);
             s.buffer == [] && s.pending == [] && forall f :: 0 <= f < |s.flushers| ==> s.flushers[f].Idle?
    ensures var s := Run(Initial(flushers), steps);
            r in s.committed <==> r in s.history && r !in s.dropped
  {
    var s := Run(Initial(flushers), steps);
    ExactlyOnePlace(flushers, steps, r);
    IdleHoldNothing(s.flushers, r);
  }

  // ----- The transaction is a lock -----

  /** At most one thread is inside a transaction, and then the connection is, and
      the pending rows are exactly what that thread has inserted of its batch. */
  ghost predicate Locked(s: State) {
    && (forall f, g ::
          && 0 <= f < |s.flushers| && 0 <= g < |s.flushers|
          && s.flushers[f].InTransaction() && s.flushers[g].InTransaction()
          ==> f == g)
    && (forall f :: 0 <= f < |s.flushers| && s.flushers[f].InTransaction() ==>
          s.inTx && s.pending + s.flushers[f].queue == s.flushers[f].batch)
    && (!s.inTx ==> s.pending == [])
  }

  lemma BeginKeepsLock(s: State, f: nat, granted: bool)
    requires Locked(s)
    ensures Locked(DoBegin(s, f, granted))
  {
    if At(s, f).Swapped? { assert [] + At(s, f).queue == At(s, f).queue; }
  }

  lemma InsertKeepsLock(s: State, f: nat, ok: bool)
    requires Locked(s)
    ensures Locked(DoInsert(s, f, ok))
  {
    if At(s, f).Inserting? && At(s, f).queue != [] {
      var q := At(s, f).queue;
      assert s.pending + [q[0]] + q[1..] == s.pending + q;
    }
  }

  lemma StepKeepsLock(s: State, step: Step)
    requires Locked(s)
    ensures Locked(Next(s, step))
  {
    match step
    case Begin(f, granted) => BeginKeepsLock(s, f, granted);
    case Insert(f, ok) => InsertKeepsLock(s, f, ok);
    case _ =>
  }

  lemma {:induction false} RunKeepsLock(flushers: nat, steps: seq<Step>)
    ensures Locked(Run(Initial(flushers), steps))
  {
    if steps != [] {
      RunKeepsLock(flushers, steps[..|steps| - 1]);
      StepKeepsLock(Run(Initial(flushers), steps[..|steps| - 1]), steps[|steps| - 1]);
    }
  }

  ghost predicate HasOwner(s: State) {
    exists f :: 0 <= f < |s.flushers| && s.flushers[f].InTransaction()
  }

  /** The step is the COMMIT or the ROLLBACK of a thread that goes on although its
      transaction is still open. */
  predicate Leaves(s: State, step: Step) {
    match step
    case Commit(f, result) => result.LeftOpen? && At(s, f).Inserting? && At(s, f).queue == []
    case Rollback(f, ok) => !ok && At(s, f).RollingBack?
    case _ => false
  }

  predicate EverLeftOpen(flushers: nat, steps: seq<Step>) {
    steps != [] &&
    var past, step := steps[..|steps| - 1], steps[|steps| - 1];
    EverLeftOpen(flushers, past) || Leaves(Run(Initial(flushers), past), step)
  }

  lemma StepKeepsOwner(s: State, step: Step)
    requires Locked(s) && (s.inTx <==> HasOwner(s)) && !Leaves(s, step)
    ensures Next(s, step).inTx <==> HasOwner(Next(s, step))
  {
    var s' := Next(s, step);
    StepKeepsLock(s, step);
    if s' != s && !step.Write? {
      if HasOwner(s) {
        var f :| 0 <= f < |s.flushers| && s.flushers[f].InTransaction();
        if f != step.f { assert s'.flushers[f].InTransaction(); }
      }
      if At(s', step.f).InTransaction() { assert s'.flushers[step.f].InTransaction(); }
    } else if HasOwner(s) {
      var f :| 0 <= f < |s.flushers| && s.flushers[f].InTransaction();
      assert s'.flushers[f].InTransaction();
    }
  }

  /** All or nothing: in any run a COMMIT that succeeds appends the whole batch of
      its thread in order, and nothing but a COMMIT ever changes the committed rows. */
  lemma BatchesAreAtomic(flushers: nat, steps: seq<Step>, step: Step)
    ensures var s := Run(Initial(flushers), steps); var s' := Next(s, step);
            s'.committed == s.committed
              + if step.Commit? && step.result.Committed? && At(s, step.f).Inserting? && At(s, step.f).queue == []
                then At(s, step.f).batch else []
  {
    var s := Run(Initial(flushers), steps);
    RunKeepsLock(flushers, steps);
    assert s.committed + [] == s.committed;
    if !step.Write? && At(s, step.f).InTransaction() {
      assert s.flushers[step.f].InTransaction();
      if At(s, step.f).queue == [] { assert s.pending + [] == s.pending; }
    }
  }

  /** What a thread has taken off its queue since it took the batch. */
  function Done(batch: seq<Rec>, queue: seq<Rec>): seq<Rec> {
    if |queue| <= |batch| then batch[..|batch| - |queue|] else []
  }

  /** What the ledger gains: on a rollback that succeeds the rows of the batch
      inserted before the failing one, on a COMMIT that rolls back the whole batch,
      and on a refused BEGIN what the buffer gathered meanwhile. */
  lemma LedgerGains(flushers: nat, steps: seq<Step>, step: Step)
    ensures var s := Run(Initial(flushers), steps); var s' := Next(s, step);
            s'.dropped == s.dropped
              + if step.Write? then [] else
                var p := At(s, step.f);
                if step.Rollback? && step.ok && p.RollingBack? then Done(p.batch, p.queue)
                else if step.Commit? && step.result.RolledBack? && p.Inserting? && p.queue == [] then p.batch
                else if step.Restore? && p.Restoring? then s.buffer
                else []
  {
    var s := Run(Initial(flushers), steps);
    RunKeepsLock(flushers, steps);
    assert s.dropped + [] == s.dropped;
    if !step.Write? && At(s, step.f).InTransaction() {
      var p := s.flushers[step.f];
      assert p.InTransaction();
      assert (s.pending + p.queue)[..|s.pending|] == s.pending;
      if p.queue == [] { assert s.pending + [] == s.pending; }
    }
  }

  // ----- A transaction left open -----

  /** The transaction is open, but the thread that opened it has gone on. */
  ghost predicate Stuck(s: State) {
    s.inTx && !HasOwner(s)
  }

  /** From then on every BEGIN is refused: nothing is ever committed again. */
  lemma {:induction false} StuckForever(s: State, steps: seq<Step>)
    requires Stuck(s)
    ensures var s' := Run(s, steps);
            Stuck(s') && s'.committed == s.committed && s'.pending == s.pending
  {
    if steps != [] {
      StuckForever(s, steps[..|steps| - 1]);
      var before := Run(s, steps[..|steps| - 1]);
      var step := steps[|steps| - 1];
      if !step.Write? && step.f < |before.flushers| {
        assert !before.flushers[step.f].InTransaction();
      }
    }
  }

  /** A single COMMIT that fails and leaves its transaction open is enough. */
  lemma LeftOpenSticks(s: State, f: nat)
    requires Locked(s) && Leaves(s, Commit(f, LeftOpen))
    ensures var s' := Next(s, Commit(f, LeftOpen));
            Stuck(s') && !Stuck(s) && s'.pending == At(s, f).batch && s'.dropped == s.dropped
  {
    assert s.flushers[f].InTransaction();
    assert s.pending + [] == s.pending;
  }

  /** And so is a single ROLLBACK that fails. */
  lemma FailedRollbackSticks(s: State, f: nat)
    requires Locked(s) && Leaves(s, Rollback(f, false))
    ensures var s' := Next(s, Rollback(f, false));
            && Stuck(s') && !Stuck(s) && s'.dropped == s.dropped
            && s'.pending == Done(At(s, f).batch, At(s, f).queue)
  {
    assert s.flushers[f].InTransaction();
    assert (s.pending + At(s, f).queue)[..|s.pending|] == s.pending;
  }

  lemma StuckStep(s: State, step: Step)
    requires Locked(s)
    ensures Stuck(Next(s, step)) <==> Stuck(s) || Leaves(s, step)
  {
    if Leaves(s, step) {
      if step.Commit? { LeftOpenSticks(s, step.f); } else { FailedRollbackSticks(s, step.f); }
    } else if Stuck(s) {
      RunSnoc(s, [], step);
      StuckForever(s, [] + [step]);
    } else {
      StepKeepsOwner(s, step);
    }
  }

  /** A run ends stuck iff some COMMIT or ROLLBACK in it left its transaction open. */
  lemma {:induction false} StuckExactly(flushers: nat, steps: seq<Step>)
    ensures Stuck(Run(Initial(flushers), steps)) <==> EverLeftOpen(flushers, steps)
  {
    if steps != [] {
      var past := steps[..|steps| - 1];
      StuckExactly(flushers, past);
      RunKeepsLock(flushers, past);
      StuckStep(Run(Initial(flushers), past), steps[|steps| - 1]);
    }
  }

  /** The transaction is the lock that `flush` does not take: that the connection is
      in a transaction iff a flusher, and then only one, is between its BEGIN and its
      end, holds as long as no COMMIT or ROLLBACK has left its transaction open, and
      no longer. */
  lemma TransactionIsLock(flushers: nat, steps: seq<Step>)
    ensures var s := Run(Initial(flushers), steps);
            Locked(s) && ((s.inTx <==> HasOwner(s)) <==> !EverLeftOpen(flushers, steps))
  {
    RunKeepsLock(flushers, steps);
    StuckExactly(flushers, steps);
  }

  // ----- What is lost -----

  ghost predicate Queued(flushers: seq<Flusher>, r: Rec) {
    exists f :: 0 <= f < |flushers| && r in flushers[f].Local()
  }

  /** Committed or on its way: buffered, in the queue of a thread, or inserted in
      a transaction that somebody will end. */
  ghost predicate Live(s: State, r: Rec) {
    r in s.committed || r in s.buffer || Queued(s.flushers, r) || (r in s.pending && HasOwner(s))
  }

  ghost predicate Lost(s: State, r: Rec) {
    r in s.history && !Live(s, r)
  }

  lemma {:induction false} InFlightIsQueued(flushers: seq<Flusher>, r: Rec)
    ensures InFlight(flushers, r) > 0 <==> Queued(flushers, r)
  {
    if flushers != [] {
      var before, last := flushers[..|flushers| - 1], flushers[|flushers| - 1];
      InFlightIsQueued(before, r);
      assert Queued(flushers, r) <==> Queued(before, r) || r in last.Local() by {
        if Queued(before, r) {
          var f :| 0 <= f < |before| && r in before[f].Local();
          assert flushers[f] == before[f];
        }
      }
    }
  }

  /** Lost is what the ledger holds and what is in a transaction without an owner. */
  lemma LostExactly(flushers: nat, steps: seq<Step>, r: Rec)
    ensures var s := Run(Initial(flushers), steps);
            Lost(s, r) <==> r in s.dropped || (r in s.pending && !HasOwner(s))
  {
    ExactlyOnePlace(flushers, steps, r);
    InFlightIsQueued(Run(Initial(flushers), steps).flushers, r);
  }

  /** What a step loses: at a ROLLBACK, whether it succeeds or not, the rows of the
      batch inserted before the failing one; at a COMMIT that fails in either way
      the whole batch; at the restoring of a refused batch what the buffer gathered. */
  function Losses(s: State, step: Step): seq<Rec> {
    if step.Write? then []
    else
      var p := At(s, step.f);
      if step.Rollback? && p.RollingBack? then Done(p.batch, p.queue)
      else if step.Commit? && !step.result.Committed? && p.Inserting? && p.queue == [] then p.batch
      else if step.Restore? && p.Restoring? then s.buffer
      else []
  }

  lemma LostWhenStuck(s: State, step: Step)
    requires Locked(s) && Stuck(s)
    ensures var s' := Next(s, step);
            s'.dropped == s.dropped + Losses(s, step) && s'.pending == s.pending && Stuck(s')
  {
    RunSnoc(s, [], step);
    StuckForever(s, [] + [step]);
    assert s.dropped + [] == s.dropped;
    if !step.Write? && step.f < |s.flushers| { assert !s.flushers[step.f].InTransaction(); }
  }

  lemma LostWhenLeaving(s: State, step: Step)
    requires Locked(s) && Leaves(s, step)
    ensures var s' := Next(s, step);
            s'.dropped == s.dropped && s'.pending == Losses(s, step) && Stuck(s') && !Stuck(s)
  {
    if step.Commit? { LeftOpenSticks(s, step.f); } else { FailedRollbackSticks(s, step.f); }
  }

  lemma LossesWereLive(s: State, step: Step, r: Rec)
    requires Locked(s) && r in Losses(s, step)
    ensures Live(s, r)
  {
    var p := At(s, step.f);
    if p.InTransaction() {
      assert s.flushers[step.f].InTransaction();
      assert r in s.pending + p.queue;
    }
  }

  /** After any run, with any number of flushers, a step loses exactly these, none
      of which was lost before. */
  lemma LossesExactly(flushers: nat, steps: seq<Step>, step: Step, r: Rec)
    ensures var s := Run(Initial(flushers), steps);
            && (Lost(Next(s, step), r) <==> Lost(s, r) || r in Losses(s, step))
            && !(Lost(s, r) && r in Losses(s, step))
  {
    var s := Run(Initial(flushers), steps);
    RunKeepsLock(flushers, steps);
    RunKeepsLock(flushers, steps + [step]);
    RunSnoc(Initial(flushers), steps, step);
    LostExactly(flushers, steps, r);
    LostExactly(flushers, steps + [step], r);
    if Stuck(s) {
      LostWhenStuck(s, step);
    } else if Leaves(s, step) {
      LostWhenLeaving(s, step);
    } else {
      StuckStep(s, step);
      LedgerGains(flushers, steps, step);
    }
    if r in Losses(s, step) { LossesWereLive(s, step, r); }
  }

  /** And for good: whatever happens next, what is lost is never committed. */
  lemma {:induction false} LossIsFinal(flushers: nat, steps: seq<Step>, more: seq<Step>, r: Rec)
    requires Lost(Run(Initial(flushers), steps), r)
    ensures var s := Run(Initial(flushers), steps + more); Lost(s, r) && r !in s.committed
  {
    if more == [] {
      assert steps + more == steps;
    } else {
      var init := more[..|more| - 1];
      LossIsFinal(flushers, steps, init, r);
      LossesExactly(flushers, steps + init, more[|more| - 1], r);
      AppendSnoc(steps, more);
    }
  }

  // ----- When nothing is lost -----
  /** A thread's queue is empty only when it has inserted all of it. */
  ghost predicate Loaded(s: State) {
    forall f :: 0 <= f < |s.flushers| ==>
      var p := s.flushers[f];
      (p.Inserting? ==> p.batch != []) && (!p.Idle? && !p.Inserting? ==> p.queue != [])
  }

  lemma StepKeepsLoaded(s: State, step: Step)
    requires Loaded(s)
    ensures Loaded(Next(s, step))
  {
  }

  lemma {:induction false} RunKeepsLoaded(flushers: nat, steps: seq<Step>)
    ensures Loaded(Run(Initial(flushers), steps))
  {
    if steps != [] {
      RunKeepsLoaded(flushers, steps[..|steps| - 1]);
      StepKeepsLoaded(Run(Initial(flushers), steps[..|steps| - 1]), steps[|steps| - 1]);
    }
  }

  /** The step puts something into the buffer. */
  predicate Puts(s: State, step: Step) {
    || step.Write?
    || (step.Restore? && At(s, step.f).Restoring?)
    || (step.Return? && At(s, step.f).Returning?)
  }

  /** Something was put into the buffer since a thread last took it; at the start,
      whether it held anything. */
  predicate Filled(s: State, steps: seq<Step>) {
    if steps == [] then s.buffer != []
    else
      var past, step := steps[..|steps| - 1], steps[|steps| - 1];
      Puts(Run(s, past), step) || (Filled(s, past) && !(step.Swap? && Takes(Run(s, past), step.f)))
  }

  lemma FilledStep(s: State, step: Step)
    requires Loaded(s)
    ensures Next(s, step).buffer != [] <==> Puts(s, step) || (s.buffer != [] && !(step.Swap? && Takes(s, step.f)))
  {
  }

  lemma {:induction false} FilledExactly(s: State, steps: seq<Step>)
    requires Loaded(s)
    ensures Loaded(Run(s, steps)) && (Run(s, steps).buffer != [] <==> Filled(s, steps))
  {
    if steps != [] {
      var past, step := steps[..|steps| - 1], steps[|steps| - 1];
      FilledExactly(s, past);
      StepKeepsLoaded(Run(s, past), step);
      FilledStep(Run(s, past), step);
    }
  }

  /** After these steps the next one restores the batch of a refused BEGIN although
      something was put into the buffer since somebody last took it, or rolls back
      rows that were inserted, or is a COMMIT that fails. */
  predicate Loses(flushers: nat, past: seq<Step>, step: Step) {
    var s := Run(Initial(flushers), past);
    match step
    case Restore(f) => At(s, f).Restoring? && Filled(Initial(flushers), past)
    case Rollback(f, _) => At(s, f).RollingBack? && |At(s, f).queue| < |At(s, f).batch|
    case Commit(f, result) => !result.Committed? && At(s, f).Inserting? && At(s, f).queue == []
    case _ => false
  }

  predicate EverLoses(flushers: nat, steps: seq<Step>) {
    steps != [] &&
    var past, step := steps[..|steps| - 1], steps[|steps| - 1];
    EverLoses(flushers, past) || Loses(flushers, past, step)
  }

  lemma LosesSomething(flushers: nat, past: seq<Step>, step: Step)
    ensures Losses(Run(Initial(flushers), past), step) != [] <==> Loses(flushers, past, step)
  {
    var s := Run(Initial(flushers), past);
    RunKeepsLoaded(flushers, past);
    FilledExactly(Initial(flushers), past);
    RunKeepsLock(flushers, past);
    if !step.Write? && At(s, step.f).InTransaction() {
      assert s.flushers[step.f].InTransaction();
      assert s.pending + At(s, step.f).queue == At(s, step.f).batch;
    }
  }

  ghost predicate NothingLost(s: State) {
    forall r :: !Lost(s, r)
  }

  lemma NothingLostStep(flushers: nat, past: seq<Step>, step: Step)
    ensures var s := Run(Initial(flushers), past);
            NothingLost(Next(s, step)) <==> NothingLost(s) && Losses(s, step) == []
  {
    var s := Run(Initial(flushers), past);
    forall r ensures Lost(Next(s, step), r) <==> Lost(s, r) || r in Losses(s, step) {
      LossesExactly(flushers, past, step, r);
    }
    if Losses(s, step) != [] {
      var r := Losses(s, step)[0];
      assert Lost(Next(s, step), r);
    }
  }

  /** A run with any number of flushers and any failures has lost no record iff it
      never takes such a step. */
  lemma {:induction false} NothingLostExactly(flushers: nat, steps: seq<Step>)
    ensures NothingLost(Run(Initial(flushers), steps)) <==> !EverLoses(flushers, steps)
  {
    if steps == [] {
      assert Initial(flushers).history == [];
    } else {
      var past, step := steps[..|steps| - 1], steps[|steps| - 1];
      NothingLostExactly(flushers, past);
      LosesSomething(flushers, past, step);
      NothingLostStep(flushers, past, step);
    }
  }

  // ----- Quiet runs -----

  /** No INSERT and no COMMIT fails. */
  predicate Clean(step: Step) {
    (step.Insert? ==> step.ok) && (step.Commit? ==> step.result == Committed)
  }

  ghost predicate NoneFails(s: State) {
    forall f :: 0 <= f < |s.flushers| ==> !s.flushers[f].RollingBack? && !s.flushers[f].Returning?
  }

  lemma CleanStep(s: State, step: Step)
    requires NoneFails(s) && Clean(step)
    ensures NoneFails(Next(s, step))
  {
  }

  lemma {:induction false} CleanRun(flushers: nat, steps: seq<Step>)
    requires forall i :: 0 <= i < |steps| ==> Clean(steps[i])
    ensures NoneFails(Run(Initial(flushers), steps))
  {
    if steps != [] {
      CleanRun(flushers, steps[..|steps| - 1]);
      CleanStep(Run(Initial(flushers), steps[..|steps| - 1]), steps[|steps| - 1]);
    }
  }

  /** How many writes there were since thread `f` last took the buffer. */
  function WritesSinceSwap(flushers: nat, f: nat, steps: seq<Step>): nat {
    if steps == [] then 0
    else
      var past, step := steps[..|steps| - 1], steps[|steps| - 1];
      if step.Write? then WritesSinceSwap(flushers, f, past) + 1
      else if step == Swap(f) && Takes(Run(Initial(flushers), past), f) then 0
      else WritesSinceSwap(flushers, f, past)
  }

  /** No write ever fell between a swap and the restoring of its refused BEGIN. */
  predicate Quiet(flushers: nat, steps: seq<Step>) {
    steps != [] ==>
      var past, step := steps[..|steps| - 1], steps[|steps| - 1];
      && Quiet(flushers, past)
      && (step.Restore? && At(Run(Initial(flushers), past), step.f).Restoring?
          ==> WritesSinceSwap(flushers, step.f, past) == 0)
  }

  /** The thread has taken the buffer, has not begun to insert it, and nobody wrote
      since. */
  predicate Fresh(flushers: nat, steps: seq<Step>, f: nat) {
    var p := At(Run(Initial(flushers), steps), f);
    (p.Swapped? || p.Restoring?) && WritesSinceSwap(flushers, f, steps) == 0
  }

  lemma FreshBefore(flushers: nat, steps: seq<Step>, f: nat)
    requires steps != [] && Fresh(flushers, steps, f)
    ensures var past, step := steps[..|steps| - 1], steps[|steps| - 1];
            if step == Swap(f) && Takes(Run(Initial(flushers), past), f) then true
            else Fresh(flushers, past, f) && !step.Write?
  {
  }

  /** There is at most one such thread, and behind it the buffer is empty. */
  ghost predicate OneFresh(flushers: nat, steps: seq<Step>) {
    && (forall f: nat, g: nat :: Fresh(flushers, steps, f) && Fresh(flushers, steps, g) ==> f == g)
    && (forall f: nat :: Fresh(flushers, steps, f) ==> Run(Initial(flushers), steps).buffer == [])
  }

  lemma QuietStep(flushers: nat, steps: seq<Step>)
    requires steps != [] && Quiet(flushers, steps)
    requires Clean(steps[|steps| - 1]) && OneFresh(flushers, steps[..|steps| - 1])
    requires NoneFails(Run(Initial(flushers), steps[..|steps| - 1]))
    ensures OneFresh(flushers, steps)
  {
    var past, step := steps[..|steps| - 1], steps[|steps| - 1];
    var s := Run(Initial(flushers), past);
    forall f: nat | Fresh(flushers, steps, f)
      ensures Run(Initial(flushers), steps).buffer == []
      ensures forall g: nat :: Fresh(flushers, steps, g) ==> f == g
    {
      FreshBefore(flushers, steps, f);
      if step.Restore? && At(s, step.f).Restoring? { assert Fresh(flushers, past, step.f); }
      forall g: nat | Fresh(flushers, steps, g) ensures f == g { FreshBefore(flushers, steps, g); }
    }
  }

  lemma {:induction false} QuietKeepsOneFresh(flushers: nat, steps: seq<Step>)
    requires (forall i :: 0 <= i < |steps| ==> Clean(steps[i])) && Quiet(flushers, steps)
    ensures OneFresh(flushers, steps)
  {
    if steps != [] {
      QuietKeepsOneFresh(flushers, steps[..|steps| - 1]);
      CleanRun(flushers, steps[..|steps| - 1]);
      QuietStep(flushers, steps);
    }
  }

  lemma {:induction false} QuietNeverLoses(flushers: nat, steps: seq<Step>)
    requires (forall i :: 0 <= i < |steps| ==> Clean(steps[i])) && Quiet(flushers, steps)
    ensures !EverLoses(flushers, steps)
  {
    if steps != [] {
      var past, step := steps[..|steps| - 1], steps[|steps| - 1];
      QuietNeverLoses(flushers, past);
      QuietKeepsOneFresh(flushers, past);
      CleanRun(flushers, past);
      RunKeepsLoaded(flushers, past);
      FilledExactly(Initial(flushers), past);
      var s := Run(Initial(flushers), past);
      if step.Restore? && At(s, step.f).Restoring? { assert Fresh(flushers, past, step.f); }
    }
  }

  /** With any number of flushers, a quiet run without failing INSERT or COMMIT loses
      nothing. */
  lemma QuietLosesNothing(flushers: nat, steps: seq<Step>)
    requires (forall i :: 0 <= i < |steps| ==> Clean(steps[i])) && Quiet(flushers, steps)
    ensures NothingLost(Run(Initial(flushers), steps))
  {
    QuietNeverLoses(flushers, steps);
    NothingLostExactly(flushers, steps);
  }

  // ----- Two flushers -----

  /** One thread takes a record, another takes the next. */
  function TwoBatches(a: (string, string), b: (string, string)): seq<Step> {
    [Write(a.0, a.1), Swap(0)] + [Write(b.0, b.1), Swap(1)]
  }

  lemma BatchTaken(s: State, f: nat, w: (string, string))
    requires f < |s.flushers| && s.flushers[f].Idle? && s.buffer == []
    ensures var r := Rec(|s.history|, w.0, w.1);
            Run(s, [Write(w.0, w.1), Swap(f)])
            == s.(history := s.history + [r], flushers := s.flushers[f := Swapped([r])])
  {
    TwoSteps(s, Write(w.0, w.1), Swap(f));
    assert [] + [Rec(|s.history|, w.0, w.1)] == [Rec(|s.history|, w.0, w.1)];
  }

  lemma TwoBatchesRun(flushers: nat, a: (string, string), b: (string, string))
    requires flushers >= 2
    ensures var x, y := Rec(0, a.0, a.1), Rec(1, b.0, b.1); var s := Initial(flushers);
            Run(s, TwoBatches(a, b))
            == s.(history := [x] + [y], flushers := s.flushers[0 := Swapped([x])][1 := Swapped([y])])
  {
    var s := Initial(flushers);
    BatchTaken(s, 0, a);
    RunAppend(s, [Write(a.0, a.1), Swap(0)], [Write(b.0, b.1), Swap(1)]);
    BatchTaken(Run(s, [Write(a.0, a.1), Swap(0)]), 1, b);
    assert [] + [Rec(0, a.0, a.1)] == [Rec(0, a.0, a.1)];
  }

  lemma TwoSteps(s: State, a: Step, b: Step)
    ensures Run(s, [a, b]) == Next(Next(s, a), b)
  {
    RunSnoc(s, [], a);
    RunSnoc(s, [a], b);
    assert [] + [a] == [a] && [a] + [b] == [a, b];
  }

  lemma WritesSinceSnoc(flushers: nat, f: nat, steps: seq<Step>, step: Step)
    requires !step.Write? && step != Swap(f)
    ensures WritesSinceSwap(flushers, f, steps + [step]) == WritesSinceSwap(flushers, f, steps)
  {
    assert (steps + [step])[..|steps|] == steps;
  }

  /** Both are refused: then the restoring of the second drops the batch that the
      first one put back, though nobody wrote since its own swap. */
  lemma RestoredBatchIsLost(a: (string, string), b: (string, string))
    ensures var steps := TwoBatches(a, b) + [Begin(0, false)] + [Begin(1, false)] + [Restore(0)];
            var s := Run(Initial(2), steps);
            && At(s, 1).Restoring? && WritesSinceSwap(2, 1, steps) == 0
            && !Lost(s, Rec(0, a.0, a.1)) && Lost(Next(s, Restore(1)), Rec(0, a.0, a.1))
  {
    var start := TwoBatches(a, b);
    var steps := start + [Begin(0, false)] + [Begin(1, false)] + [Restore(0)];
    TwoBatchesRun(2, a, b);
    RunSnoc(Initial(2), start, Begin(0, false));
    RunSnoc(Initial(2), start + [Begin(0, false)], Begin(1, false));
    RunSnoc(Initial(2), start + [Begin(0, false)] + [Begin(1, false)], Restore(0));
    SwapResets(2, a, b);
    WritesSinceSnoc(2, 1, start, Begin(0, false));
    WritesSinceSnoc(2, 1, start + [Begin(0, false)], Begin(1, false));
    WritesSinceSnoc(2, 1, start + [Begin(0, false)] + [Begin(1, false)], Restore(0));
    var s := Run(Initial(2), steps);
    var r := Rec(0, a.0, a.1);
    assert s.buffer == [r] && s.flushers[1] == Restoring([Rec(1, b.0, b.1)]);
    LossesExactly(2, steps, Restore(1), r);
  }

  lemma SwapResets(flushers: nat, a: (string, string), b: (string, string))
    requires flushers >= 2
    ensures WritesSinceSwap(flushers, 1, TwoBatches(a, b)) == 0
  {
    var all := TwoBatches(a, b);
    var past := all[..3];
    assert all == past + [Swap(1)];
    assert past[2] == Write(b.0, b.1);
    if !Takes(Run(Initial(flushers), past), 1) {
      TwoBatchesRun(flushers, a, b);
      RunSnoc(Initial(flushers), past, Swap(1));
      assert false;
    }
  }

  // ----- How many flushers are safe -----

  /** No statement fails by itself: BEGIN is refused only inside a transaction. */
  predicate Sound(step: Step) {
    Clean(step) && (step.Begin? ==> step.granted)
  }

  ghost predicate AllSound(steps: seq<Step>) {
    forall i :: 0 <= i < |steps| ==> Sound(steps[i])
  }

  /** Nobody is refused, fails or has left a transaction behind. */
  ghost predicate Smooth(s: State) {
    && |s.flushers| <= 1 && (s.inTx <==> HasOwner(s))
    && forall f :: 0 <= f < |s.flushers| ==> s.flushers[f].Idle? || s.flushers[f].Swapped? || s.flushers[f].Inserting?
  }

  lemma SoundStep(s: State, step: Step)
    requires Locked(s) && Smooth(s) && Sound(step)
    ensures Smooth(Next(s, step))
  {
    StepKeepsOwner(s, step);
    if HasOwner(s) { assert s.flushers[0].InTransaction(); }
  }

  lemma {:induction false} NeverRefused(flushers: nat, steps: seq<Step>)
    requires flushers <= 1 && AllSound(steps)
    ensures Smooth(Run(Initial(flushers), steps)) && !EverLoses(flushers, steps)
  {
    if steps != [] {
      var past, step := steps[..|steps| - 1], steps[|steps| - 1];
      NeverRefused(flushers, past);
      RunKeepsLock(flushers, past);
      SoundStep(Run(Initial(flushers), past), step);
    }
  }

  /** Two threads take the buffer; one begins, the other is refused. */
  function Clash(w: (string, string)): seq<Step> {
    TwoBatches(w, w) + [Begin(1, true), Begin(0, true)]
  }

  lemma ClashRefuses(flushers: nat, w: (string, string))
    requires flushers >= 2
    ensures At(Run(Initial(flushers), Clash(w)), 0).Restoring?
  {
    var s := Run(Initial(flushers), TwoBatches(w, w));
    TwoBatchesRun(flushers, w, w);
    RunAppend(Initial(flushers), TwoBatches(w, w), [Begin(1, true), Begin(0, true)]);
    TwoSteps(s, Begin(1, true), Begin(0, true));
  }

  /** A database on which no statement ever fails by itself loses no record, on any
      run, iff there is at most one flusher. The program has two: its own thread and
      every request for recent records. */
  lemma SafeFlushersExactly(flushers: nat)
    ensures (forall steps :: AllSound(steps) ==> NothingLost(Run(Initial(flushers), steps))) <==> flushers <= 1
  {
    if flushers <= 1 {
      forall steps | AllSound(steps) ensures NothingLost(Run(Initial(flushers), steps)) {
        NeverRefused(flushers, steps);
        NothingLostExactly(flushers, steps);
      }
    } else {
      var w := ("", "");
      var past := Clash(w) + [Write("", "")];
      ClashRefuses(flushers, w);
      RunSnoc(Initial(flushers), Clash(w), Write("", ""));
      assert past[..|past| - 1] == Clash(w);
      assert Loses(flushers, past, Restore(0));
      var steps := past + [Restore(0)];
      assert steps[..|steps| - 1] == past;
      NothingLostExactly(flushers, steps);
    }
  }

  // ----- One flusher, in order -----

  /** The records of a one-flusher state in the order in which they are to reach
      the table. */
  function Line(s: State): seq<Rec>
    requires |s.flushers| == 1
  {
    s.committed + s.pending + s.flushers[0].Local() + s.buffer
  }

  /** An order-preserving subsequence of the history. */
  ghost predicate Ordered(line: seq<Rec>, history: seq<Rec>) {
    && (forall i, j :: 0 <= i < j < |line| ==> line[i].id < line[j].id)
    && (forall i :: 0 <= i < |line| ==> line[i].id < |history| && history[line[i].id] == line[i])
  }

  ghost predicate NoRollback(s: State) {
    |s.flushers| == 1 && !s.flushers[0].RollingBack? && !s.flushers[0].Returning?
  }

  lemma LineInsert(s: State)
    requires NoRollback(s) && Locked(s)
    ensures var s' := Next(s, Insert(0, true)); NoRollback(s') && Line(s') == Line(s)
  {
    var p := s.flushers[0];
    if p.Inserting? && p.queue != [] {
      assert p.InTransaction();
      assert s.pending + [p.queue[0]] + p.queue[1..] == s.pending + p.queue;
    }
  }

  lemma LineCommit(s: State)
    requires NoRollback(s) && Locked(s)
    ensures var s' := Next(s, Commit(0, Committed)); NoRollback(s') && Line(s') == Line(s)
  {
    var p := s.flushers[0];
    if p.Inserting? && p.queue == [] { assert p.InTransaction(); }
  }

  lemma LineRestore(s: State)
    requires NoRollback(s)
    ensures var s' := Next(s, Restore(0));
            && NoRollback(s') && Line(s') <= Line(s)
            && |Line(s')| + |s'.dropped| == |Line(s)| + |s.dropped|
  {
  }

  lemma LineStep(s: State, step: Step)
    requires NoRollback(s) && Locked(s) && Clean(step) && !step.Write?
    ensures var s' := Next(s, step);
            && NoRollback(s') && s'.history == s.history && Line(s') <= Line(s)
            && |Line(s')| + |s'.dropped| == |Line(s)| + |s.dropped|
  {
    if step.f == 0 {
      match step
      case Restore(_) => LineRestore(s);
      case Insert(_, _) => LineInsert(s);
      case Commit(_, _) => LineCommit(s);
      case _ =>
    }
  }

  lemma LineWrite(s: State, imsi: string, action: string)
    requires NoRollback(s)
    ensures var s' := Next(s, Write(imsi, action)); var r := Rec(|s.history|, imsi, action);
            NoRollback(s') && Line(s') == Line(s) + [r] && s'.history == s.history + [r] && s'.dropped == s.dropped
  {
  }

  lemma OrderedSnoc(line: seq<Rec>, history: seq<Rec>, r: Rec)
    requires Ordered(line, history) && r.id == |history|
    ensures Ordered(line + [r], history + [r])
  {
  }

  lemma OrderedPrefix(short: seq<Rec>, line: seq<Rec>, history: seq<Rec>)
    requires Ordered(line, history) && short <= line
    ensures Ordered(short, history)
  {
  }

  /** With a single flusher and no failing INSERT or COMMIT, committed, pending,
      queued and buffered records in a row are always a subsequence of the write
      history in its order, short of it by what the ledger holds. */
  lemma {:induction false} OrderKept(steps: seq<Step>)
    requires forall i :: 0 <= i < |steps| ==> Clean(steps[i])
    ensures var s := Run(Initial(1), steps);
            NoRollback(s) && Locked(s) && Ordered(Line(s), s.history) && |Line(s)| + |s.dropped| == |s.history|
  {
    RunKeepsLock(1, steps);
    if steps != [] {
      var before, step := Run(Initial(1), steps[..|steps| - 1]), steps[|steps| - 1];
      OrderKept(steps[..|steps| - 1]);
      if step.Write? {
        LineWrite(before, step.imsi, step.action);
        OrderedSnoc(Line(before), before.history, Rec(|before.history|, step.imsi, step.action));
      } else {
        LineStep(before, step);
        OrderedPrefix(Line(Next(before, step)), Line(before), before.history);
      }
    }
  }

  lemma {:induction false} IdsClimb(line: seq<Rec>, history: seq<Rec>, i: nat)
    requires Ordered(line, history) && i < |line|
    ensures line[i].id >= i
  {
    if i > 0 { IdsClimb(line, history, i - 1); }
  }

  lemma {:induction false} IdsFit(line: seq<Rec>, history: seq<Rec>, i: nat)
    requires Ordered(line, history) && i < |line|
    ensures line[i].id + |line| - i <= |history|
    decreases |line| - i
  {
    if i + 1 < |line| { IdsFit(line, history, i + 1); }
  }

  lemma FullLine(line: seq<Rec>, history: seq<Rec>)
    requires Ordered(line, history) && |line| == |history|
    ensures line == history
  {
    forall i | 0 <= i < |line| ensures line[i] == history[i] {
      IdsClimb(line, history, i);
      IdsFit(line, history, i);
    }
  }

  lemma BufferStep(s: State, step: Step, n: nat)
    requires |s.flushers| == 1
    requires s.flushers[0].Swapped? || s.flushers[0].Restoring? ==> |s.buffer| == n
    ensures var s' := Next(s, step); var p := s'.flushers;
            && |p| == 1
            && (p[0].Swapped? || p[0].Restoring? ==>
                  |s'.buffer| == if step.Write? then n + 1 else if step == Swap(0) && Takes(s, 0) then 0 else n)
  {
    match step
    case Write(_, _) =>
    case Swap(f) =>
    case Insert(f, ok) =>
    case Commit(f, result) =>
    case _ =>
  }

  /** Until its queue is restored or inserted, the buffer behind a flusher holds as
      many records as were written since the swap. */
  lemma {:induction false} BufferSinceSwap(steps: seq<Step>)
    ensures var s := Run(Initial(1), steps);
            && |s.flushers| == 1
            && (s.flushers[0].Swapped? || s.flushers[0].Restoring? ==> |s.buffer| == WritesSinceSwap(1, 0, steps))
  {
    if steps != [] {
      var past := steps[..|steps| - 1];
      BufferSinceSwap(past);
      BufferStep(Run(Initial(1), past), steps[|steps| - 1], WritesSinceSwap(1, 0, past));
    }
  }

  lemma CleanLosses(s: State, step: Step)
    requires NoRollback(s) && Clean(step)
    ensures Next(s, step).dropped
            == s.dropped + if step.Restore? && At(s, step.f).Restoring? then s.buffer else []
  {
    assert s.dropped + [] == s.dropped;
  }

  lemma {:induction false} QuietExactly(steps: seq<Step>)
    requires forall i :: 0 <= i < |steps| ==> Clean(steps[i])
    ensures Run(Initial(1), steps).dropped == [] <==> Quiet(1, steps)
  {
    if steps != [] {
      var past := steps[..|steps| - 1];
      QuietExactly(past);
      OrderKept(past);
      BufferSinceSwap(past);
      CleanLosses(Run(Initial(1), past), steps[|steps| - 1]);
    }
  }

  /** And then they are the whole history iff no write ever fell between a swap and
      the restoring of its refused BEGIN. */
  lemma WholeLineExactly(steps: seq<Step>)
    requires forall i :: 0 <= i < |steps| ==> Clean(steps[i])
    ensures var s := Run(Initial(1), steps);
            |s.flushers| == 1 && (Line(s) == s.history <==> Quiet(1, steps))
  {
    var s := Run(Initial(1), steps);
    OrderKept(steps);
    QuietExactly(steps);
    if s.dropped == [] { FullLine(Line(s), s.history); }
  }

  // ----- The last flush -----

  function Inserts(n: nat): seq<Step> {
    seq(n, _ => Insert(0, true))
  }

  /** A flush in which everything succeeds. */
  function GoodFlush(s: State): seq<Step> {
    [Swap(0), Begin(0, true)] + Inserts(|s.buffer|) + [Commit(0, Committed)]
  }

  lemma {:induction false} InsertsRun(s: State, n: nat)
    requires |s.flushers| == 1 && s.inTx && s.flushers[0].Inserting? && n <= |s.flushers[0].queue|
    ensures var p := s.flushers[0];
            Run(s, Inserts(n))
            == s.(flushers := [Inserting(p.batch, p.queue[n..])], pending := s.pending + p.queue[..n])
  {
    var p := s.flushers[0];
    if n == 0 {
      assert p.queue[0..] == p.queue && s.pending + p.queue[..0] == s.pending && s.flushers == [p];
    } else {
      InsertsRun(s, n - 1);
      assert Inserts(n) == Inserts(n - 1) + [Insert(0, true)];
      RunSnoc(s, Inserts(n - 1), Insert(0, true));
      assert p.queue[n - 1..][1..] == p.queue[n..];
      assert s.pending + p.queue[..n - 1] + [p.queue[n - 1]] == s.pending + p.queue[..n];
    }
  }

  lemma FlushInserts(s: State)
    requires |s.flushers| == 1 && s.flushers[0].Idle? && !s.inTx && s.pending == [] && s.buffer != []
    ensures Run(s, [Swap(0), Begin(0, true)] + Inserts(|s.buffer|))
            == s.(flushers := [Inserting(s.buffer, [])], buffer := [], pending := s.buffer, inTx := true)
  {
    var n := |s.buffer|;
    TwoSteps(s, Swap(0), Begin(0, true));
    RunAppend(s, [Swap(0), Begin(0, true)], Inserts(n));
    var begun := s.(flushers := [Inserting(s.buffer, s.buffer)], buffer := [], inTx := true);
    assert Run(s, [Swap(0), Begin(0, true)]) == begun;
    InsertsRun(begun, n);
    assert s.buffer[n..] == [] && [] + s.buffer[..n] == s.buffer;
  }

  /** A successful flush by an idle thread on a free connection leaves nothing
      behind: the table holds all there was in line. */
  lemma GoodFlushEmpties(s: State)
    requires |s.flushers| == 1 && s.flushers[0].Idle? && !s.inTx && s.pending == []
    ensures Run(s, GoodFlush(s)) == s.(committed := s.committed + s.buffer, buffer := [])
  {
    var start := [Swap(0), Begin(0, true)];
    RunSnoc(s, start + Inserts(|s.buffer|), Commit(0, Committed));
    assert s.flushers == [Idle];
    if s.buffer == [] {
      TwoSteps(s, Swap(0), Begin(0, true));
      assert start + Inserts(0) == start && s.committed + [] == s.committed;
    } else {
      FlushInserts(s);
    }
  }

  lemma LineAtRest(s: State)
    requires |s.flushers| == 1 && s.flushers[0].Idle? && s.pending == []
    ensures Line(s) == s.committed + s.buffer
  {
  }

  /** So a quiet run of one flusher without failing INSERT or COMMIT that ends with
      such a flush, as in the destructor, leaves the committed rows equal to the
      entire history. */
  lemma FinalFlushCommitsAll(steps: seq<Step>, s: State)
    requires forall i :: 0 <= i < |steps| ==> Clean(steps[i])
    requires Quiet(1, steps)
    requires s == Run(Initial(1), steps) && s.flushers == [Idle] && !s.inTx
    ensures var s' := Run(s, GoodFlush(s)); s'.committed == s.history && s'.buffer == []
  {
    OrderKept(steps);
    WholeLineExactly(steps);
    LineAtRest(s);
    GoodFlushEmpties(s);
  }
}
