/** One flush among other threads: its steps, and the records it loses. */
module Flushing {
  import opened CdrBatching

  /** What a flush meets: whether BEGIN is granted, which INSERT succeeds, how
      ROLLBACK and COMMIT end, and the steps of other threads: `others(0)` before
      BEGIN, and then `others(i)` before what follows the i-th statement. */
  datatype FlushEnv = FlushEnv(
    granted: bool, others: nat -> seq<Step>, insertOk: nat -> bool, rollbackOk: bool, commit: CommitResult)

  /** Steps of threads other than `f`. */
  predicate Foreign(f: nat, steps: seq<Step>) {
    forall i :: 0 <= i < |steps| ==> steps[i].Write? || steps[i].f != f
  }

  ghost predicate OthersOnly(f: nat, env: FlushEnv) {
    forall i: nat :: Foreign(f, env.others(i))
  }

  /** The first INSERT at or after `k` that fails, or else `n`. */
  function FirstBad(ok: nat -> bool, k: nat, n: nat): (r: nat)
    requires k <= n
    ensures k <= r <= n && (r < n ==> !ok(r))
    ensures forall i :: k <= i < r ==> ok(i)
    decreases n - k
  {
    if k == n || !ok(k) then k else FirstBad(ok, k + 1, n)
  }

  // ----- The steps of a flush -----

  /** These steps of others, and then the step. */
  function Then(others: seq<Step>, step: Step): seq<Step> {
    others + [step]
  }

  /** The steps up to the answer to BEGIN. */
  function Opening(f: nat, env: FlushEnv): seq<Step> {
    [Swap(f)] + Then(env.others(0), Begin(f, env.granted))
  }

  /** The first `k` INSERTs, which succeed. */
  function Insertions(f: nat, env: FlushEnv, k: nat): seq<Step> {
    if k == 0 then [] else Insertions(f, env, k - 1) + Then(env.others(k), Insert(f, true))
  }

  /** INSERT number `k` fails. */
  function Failing(f: nat, env: FlushEnv, k: nat): seq<Step> {
    Then(env.others(k + 1), Insert(f, false))
    + Then(env.others(k + 2), Rollback(f, env.rollbackOk))
    + Then(env.others(k + 3), Return(f))
  }

  /** The steps after `k` INSERTs out of `n` succeeded. */
  function Ending(f: nat, env: FlushEnv, k: nat, n: nat): seq<Step> {
    if k < n then Failing(f, env, k) else Then(env.others(n + 1), Commit(f, env.commit))
  }

  /** The steps inside the transaction. */
  function Inside(f: nat, env: FlushEnv, n: nat): seq<Step> {
    var k := FirstBad(env.insertOk, 0, n);
    Insertions(f, env, k) + Ending(f, env, k, n)
  }

  /** BEGIN fails, or meets a transaction of another thread or one left open. */
  predicate Refused(s: State, f: nat, env: FlushEnv) {
    !env.granted || Run(Next(s, Swap(f)), env.others(0)).inTx
  }

  /** The steps of one flush. */
  function Script(s: State, f: nat, env: FlushEnv): seq<Step> {
    if s.buffer == [] then []
    else
      Opening(f, env)
      + if Refused(s, f, env) then Then(env.others(1), Restore(f)) else Inside(f, env, |s.buffer|)
  }

  lemma OneStep(s: State, step: Step)
    ensures Run(s, [step]) == Next(s, step)
  {
    assert [step][..0] == [];
  }

  lemma OpeningInPieces(s: State, f: nat, env: FlushEnv)
    ensures Run(s, Opening(f, env)) == Next(Run(Next(s, Swap(f)), env.others(0)), Begin(f, env.granted))
  {
    RunAppend(s, [Swap(f)], Then(env.others(0), Begin(f, env.granted)));
    OneStep(s, Swap(f));
    RunSnoc(Next(s, Swap(f)), env.others(0), Begin(f, env.granted));
  }

  lemma InsertionStep(t: State, f: nat, env: FlushEnv, k: nat)
    requires k > 0
    ensures Run(t, Insertions(f, env, k))
            == Next(Run(Run(t, Insertions(f, env, k - 1)), env.others(k)), Insert(f, true))
  {
    RunAppend(t, Insertions(f, env, k - 1), Then(env.others(k), Insert(f, true)));
    RunSnoc(Run(t, Insertions(f, env, k - 1)), env.others(k), Insert(f, true));
  }

  lemma FailingInPieces(t: State, f: nat, env: FlushEnv, k: nat)
    ensures var t1 := Next(Run(t, env.others(k + 1)), Insert(f, false));
            var t2 := Next(Run(t1, env.others(k + 2)), Rollback(f, env.rollbackOk));
            Run(t, Failing(f, env, k)) == Next(Run(t2, env.others(k + 3)), Return(f))
  {
    var one := Then(env.others(k + 1), Insert(f, false));
    var two := Then(env.others(k + 2), Rollback(f, env.rollbackOk));
    var three := Then(env.others(k + 3), Return(f));
    RunAppend(t, one + two, three);
    RunAppend(t, one, two);
    RunSnoc(t, env.others(k + 1), Insert(f, false));
    RunSnoc(Run(t, one), env.others(k + 2), Rollback(f, env.rollbackOk));
    RunSnoc(Run(t, one + two), env.others(k + 3), Return(f));
  }

  // ----- The thread among the others -----

  lemma ForeignStep(s: State, f: nat, step: Step)
    requires step.Write? || step.f != f
    ensures At(Next(s, step), f) == At(s, f) && |Next(s, step).flushers| == |s.flushers|
  {
  }

  lemma {:induction false} ForeignKeeps(s: State, f: nat, steps: seq<Step>)
    requires Foreign(f, steps)
    ensures At(Run(s, steps), f) == At(s, f) && |Run(s, steps).flushers| == |s.flushers|
  {
    if steps != [] {
      ForeignKeeps(s, f, steps[..|steps| - 1]);
      ForeignStep(Run(s, steps[..|steps| - 1]), f, steps[|steps| - 1]);
    }
  }

  /** The step loses a record. */
  ghost predicate LosesNow(s: State, step: Step) {
    exists r :: Lost(Next(s, step), r) && !Lost(s, r)
  }

  /** Some step of thread `f` among these loses a record. */
  ghost predicate LosesBy(s: State, f: nat, steps: seq<Step>) {
    steps != [] &&
    var past, step := steps[..|steps| - 1], steps[|steps| - 1];
    LosesBy(s, f, past) || (!step.Write? && step.f == f && LosesNow(Run(s, past), step))
  }

  lemma LosesBySnoc(s: State, f: nat, steps: seq<Step>, step: Step)
    requires !step.Write? && step.f == f
    ensures LosesBy(s, f, Then(steps, step)) <==> LosesBy(s, f, steps) || LosesNow(Run(s, steps), step)
  {
    assert Then(steps, step)[..|steps|] == steps;
  }

  lemma {:induction false} LosesByAppend(s: State, f: nat, a: seq<Step>, b: seq<Step>)
    ensures LosesBy(s, f, a + b) <==> LosesBy(s, f, a) || LosesBy(Run(s, a), f, b)
  {
    if b == [] {
      assert a + b == a;
    } else {
      AppendSnoc(a, b);
      LosesByAppend(s, f, a, b[..|b| - 1]);
      RunAppend(s, a, b[..|b| - 1]);
    }
  }

  lemma {:induction false} ForeignLosesNothing(s: State, f: nat, steps: seq<Step>)
    requires Foreign(f, steps)
    ensures !LosesBy(s, f, steps)
  {
    if steps != [] { ForeignLosesNothing(s, f, steps[..|steps| - 1]); }
  }

  /** A state that some run with `n` flushers leads to. */
  ghost predicate Reached(n: nat, s: State) {
    exists steps :: s == Run(Initial(n), steps)
  }

  lemma ReachedMore(n: nat, s: State, steps: seq<Step>)
    requires Reached(n, s)
    ensures Reached(n, Run(s, steps))
  {
    var past :| s == Run(Initial(n), past);
    RunAppend(Initial(n), past, steps);
  }

  lemma ReachedIs(n: nat, s: State)
    requires Reached(n, s)
    ensures Locked(s) && Loaded(s) && |s.flushers| == n
  {
    var past :| s == Run(Initial(n), past);
    RunKeepsLock(n, past);
    RunKeepsLoaded(n, past);
    RunKeepsSize(Initial(n), past);
  }

  lemma {:induction false} RunKeepsSize(s: State, steps: seq<Step>)
    ensures |Run(s, steps).flushers| == |s.flushers|
  {
    if steps != [] { RunKeepsSize(s, steps[..|steps| - 1]); }
  }

  lemma NewlyLost(n: nat, s: State, step: Step)
    requires Reached(n, s)
    ensures LosesNow(s, step) <==> Losses(s, step) != []
  {
    var past :| s == Run(Initial(n), past);
    forall r ensures Lost(Next(s, step), r) && !Lost(s, r) <==> r in Losses(s, step) {
      LossesExactly(n, past, step, r);
    }
    if Losses(s, step) != [] { assert Losses(s, step)[0] in Losses(s, step); }
  }

  /** One step of thread `f` after steps of others. */
  lemma OwnStep(n: nat, s: State, f: nat, others: seq<Step>, step: Step)
    requires Reached(n, s) && Foreign(f, others) && !step.Write? && step.f == f
    ensures LosesBy(s, f, Then(others, step)) <==> Losses(Run(s, others), step) != []
    ensures Run(s, Then(others, step)) == Next(Run(s, others), step)
    ensures At(Run(s, others), f) == At(s, f) && |Run(s, others).flushers| == |s.flushers|
    ensures Reached(n, Run(s, others)) && Reached(n, Run(s, Then(others, step)))
  {
    ReachedMore(n, s, others);
    ReachedMore(n, s, Then(others, step));
    NewlyLost(n, Run(s, others), step);
    ForeignLosesNothing(s, f, others);
    ForeignKeeps(s, f, others);
    LosesBySnoc(s, f, others, step);
    RunSnoc(s, others, step);
  }

  // ----- What a flush loses -----

  lemma SwapTakes(s: State, f: nat)
    requires Takes(s, f)
    ensures At(Next(s, Swap(f)), f) == Swapped(s.buffer) && Losses(s, Swap(f)) == []
  {
  }

  lemma SwapLoses(n: nat, s: State, f: nat)
    requires Reached(n, s) && Takes(s, f)
    ensures !LosesBy(s, f, [Swap(f)]) && Run(s, [Swap(f)]) == Next(s, Swap(f)) && Reached(n, Next(s, Swap(f)))
  {
    SwapTakes(s, f);
    NewlyLost(n, s, Swap(f));
    OneStep(s, Swap(f));
    ReachedMore(n, s, [Swap(f)]);
    LosesBySnoc(s, f, [], Swap(f));
    assert Then([], Swap(f)) == [Swap(f)];
  }

  lemma BeginLoses(n: nat, t: State, f: nat, others: seq<Step>, q: seq<Rec>, granted: bool)
    requires Reached(n, t) && Foreign(f, others) && f < n && At(t, f) == Swapped(q)
    ensures var t' := Run(t, Then(others, Begin(f, granted)));
            && Reached(n, t') && !LosesBy(t, f, Then(others, Begin(f, granted)))
            && At(t', f) == if !granted || Run(t, others).inTx then Restoring(q) else Inserting(q, q)
  {
    ReachedIs(n, t);
    OwnStep(n, t, f, others, Begin(f, granted));
  }

  lemma OpeningLoses(n: nat, s: State, f: nat, env: FlushEnv)
    requires Reached(n, s) && OthersOnly(f, env) && f < n && At(s, f) == Idle && s.buffer != []
    ensures var t := Run(s, Opening(f, env));
            && Reached(n, t) && !LosesBy(s, f, Opening(f, env))
            && At(t, f) == (if Refused(s, f, env) then Restoring(s.buffer) else Inserting(s.buffer, s.buffer))
  {
    ReachedIs(n, s);
    SwapTakes(s, f);
    SwapLoses(n, s, f);
    BeginLoses(n, Next(s, Swap(f)), f, env.others(0), s.buffer, env.granted);
    LosesByAppend(s, f, [Swap(f)], Then(env.others(0), Begin(f, env.granted)));
    RunAppend(s, [Swap(f)], Then(env.others(0), Begin(f, env.granted)));
  }

  lemma InsertLoses(n: nat, t: State, f: nat, others: seq<Step>, batch: seq<Rec>, q: seq<Rec>, ok: bool)
    requires Reached(n, t) && Foreign(f, others) && f < n && At(t, f) == Inserting(batch, q) && q != []
    ensures var t' := Run(t, Then(others, Insert(f, ok)));
            && Reached(n, t') && !LosesBy(t, f, Then(others, Insert(f, ok)))
            && At(t', f) == if ok then Inserting(batch, q[1..]) else RollingBack(batch, q)
  {
    ReachedIs(n, t);
    OwnStep(n, t, f, others, Insert(f, ok));
  }

  lemma {:induction false} InsertionsLose(n: nat, t: State, f: nat, env: FlushEnv, batch: seq<Rec>, k: nat)
    requires Reached(n, t) && OthersOnly(f, env) && f < n && At(t, f) == Inserting(batch, batch) && k <= |batch|
    ensures var t' := Run(t, Insertions(f, env, k));
            Reached(n, t') && !LosesBy(t, f, Insertions(f, env, k)) && At(t', f) == Inserting(batch, batch[k..])
  {
    if k == 0 {
      assert batch[0..] == batch;
    } else {
      InsertionsLose(n, t, f, env, batch, k - 1);
      InsertLoses(n, Run(t, Insertions(f, env, k - 1)), f, env.others(k), batch, batch[k - 1..], true);
      LosesByAppend(t, f, Insertions(f, env, k - 1), Then(env.others(k), Insert(f, true)));
      RunAppend(t, Insertions(f, env, k - 1), Then(env.others(k), Insert(f, true)));
      assert batch[k - 1..][1..] == batch[k..];
    }
  }

  lemma RollbackLoses(n: nat, t: State, f: nat, others: seq<Step>, batch: seq<Rec>, k: nat, ok: bool)
    requires Reached(n, t) && Foreign(f, others) && f < n && k < |batch|
    requires At(t, f) == RollingBack(batch, batch[k..])
    ensures LosesBy(t, f, Then(others, Rollback(f, ok))) <==> k > 0
    ensures Reached(n, Run(t, Then(others, Rollback(f, ok))))
  {
    OwnStep(n, t, f, others, Rollback(f, ok));
  }

  lemma ReturnLoses(n: nat, t: State, f: nat, others: seq<Step>)
    requires Reached(n, t) && Foreign(f, others)
    ensures !LosesBy(t, f, Then(others, Return(f)))
  {
    OwnStep(n, t, f, others, Return(f));
  }

  lemma FailingLoses(n: nat, t: State, f: nat, env: FlushEnv, batch: seq<Rec>, k: nat)
    requires Reached(n, t) && OthersOnly(f, env) && f < n && k < |batch|
    requires At(t, f) == Inserting(batch, batch[k..])
    ensures LosesBy(t, f, Failing(f, env, k)) <==> k > 0
  {
    var one := Then(env.others(k + 1), Insert(f, false));
    var two := Then(env.others(k + 2), Rollback(f, env.rollbackOk));
    var three := Then(env.others(k + 3), Return(f));
    InsertLoses(n, t, f, env.others(k + 1), batch, batch[k..], false);
    RollbackLoses(n, Run(t, one), f, env.others(k + 2), batch, k, env.rollbackOk);
    ReturnLoses(n, Run(Run(t, one), two), f, env.others(k + 3));
    LosesByAppend(t, f, one, two);
    LosesByAppend(t, f, one + two, three);
    RunAppend(t, one, two);
  }

  lemma CommitLoses(n: nat, t: State, f: nat, others: seq<Step>, batch: seq<Rec>, result: CommitResult)
    requires Reached(n, t) && Foreign(f, others) && f < n && At(t, f) == Inserting(batch, []) && batch != []
    ensures LosesBy(t, f, Then(others, Commit(f, result))) <==> result != Committed
  {
    OwnStep(n, t, f, others, Commit(f, result));
  }

  lemma EndingLoses(n: nat, t: State, f: nat, env: FlushEnv, batch: seq<Rec>, k: nat)
    requires Reached(n, t) && OthersOnly(f, env) && f < n && batch != [] && k <= |batch|
    requires At(t, f) == Inserting(batch, batch[k..])
    ensures LosesBy(t, f, Ending(f, env, k, |batch|)) <==> if k < |batch| then k > 0 else env.commit != Committed
  {
    if k < |batch| {
      FailingLoses(n, t, f, env, batch, k);
    } else {
      CommitLoses(n, t, f, env.others(|batch| + 1), batch, env.commit);
    }
  }

  lemma InsideLoses(n: nat, t: State, f: nat, env: FlushEnv, batch: seq<Rec>)
    requires Reached(n, t) && OthersOnly(f, env) && f < n && At(t, f) == Inserting(batch, batch) && batch != []
    ensures var k := FirstBad(env.insertOk, 0, |batch|);
            LosesBy(t, f, Inside(f, env, |batch|)) <==> if k < |batch| then k > 0 else env.commit != Committed
  {
    var k := FirstBad(env.insertOk, 0, |batch|);
    InsertionsLose(n, t, f, env, batch, k);
    LosesByAppend(t, f, Insertions(f, env, k), Ending(f, env, k, |batch|));
    EndingLoses(n, Run(t, Insertions(f, env, k)), f, env, batch, k);
  }

  /** What happens between the swap of a flush and its restoring. */
  function Window(f: nat, env: FlushEnv): seq<Step> {
    Then(env.others(0), Begin(f, env.granted)) + env.others(1)
  }

  lemma RefusedLoses(n: nat, s: State, f: nat, env: FlushEnv)
    requires Reached(n, s) && OthersOnly(f, env) && f < n && At(s, f) == Idle && s.buffer != []
    requires Refused(s, f, env)
    ensures LosesBy(Run(s, Opening(f, env)), f, Then(env.others(1), Restore(f)))
            <==> Filled(Next(s, Swap(f)), Window(f, env))
  {
    var t, start := Run(s, Opening(f, env)), Next(s, Swap(f));
    OpeningLoses(n, s, f, env);
    OwnStep(n, t, f, env.others(1), Restore(f));
    ReachedIs(n, s);
    StepKeepsLoaded(s, Swap(f));
    FilledExactly(start, Window(f, env));
    RunAppend(start, Then(env.others(0), Begin(f, env.granted)), env.others(1));
    OpeningInPieces(s, f, env);
    RunSnoc(start, env.others(0), Begin(f, env.granted));
  }

  /** Some INSERT but the first fails after all before it succeeded. */
  ghost predicate FailsLate(env: FlushEnv, n: nat) {
    exists i :: 0 < i < n && !env.insertOk(i) && forall j :: 0 <= j < i ==> env.insertOk(j)
  }

  ghost predicate AllInserted(env: FlushEnv, n: nat) {
    forall i :: 0 <= i < n ==> env.insertOk(i)
  }

  lemma FirstBadMeans(env: FlushEnv, n: nat)
    ensures var k := FirstBad(env.insertOk, 0, n);
            (FailsLate(env, n) <==> 0 < k < n) && (AllInserted(env, n) <==> k == n)
  {
    var k := FirstBad(env.insertOk, 0, n);
    if 0 < k < n { assert !env.insertOk(k); }
    if FailsLate(env, n) {
      var i :| 0 < i < n && !env.insertOk(i) && forall j :: 0 <= j < i ==> env.insertOk(j);
      assert i == k;
    }
  }

  /** Whatever any number of other threads do meanwhile, a flush of a non-empty buffer
      in any state that a run leads to loses records itself iff BEGIN is refused and
      something is put into the buffer after the last time somebody takes it, by a
      write or by another flush that gives its batch back, or a rollback, even one
      that fails, undoes rows inserted before a failing one, or COMMIT fails. */
  lemma FlushLosesExactly(n: nat, s: State, f: nat, env: FlushEnv)
    requires Reached(n, s) && OthersOnly(f, env) && f < n && At(s, f) == Idle && s.buffer != []
    ensures LosesBy(s, f, Script(s, f, env))
            <==> if Refused(s, f, env) then Filled(Next(s, Swap(f)), Window(f, env))
                 else FailsLate(env, |s.buffer|) || (AllInserted(env, |s.buffer|) && env.commit != Committed)
  {
    var t := Run(s, Opening(f, env));
    OpeningLoses(n, s, f, env);
    FirstBadMeans(env, |s.buffer|);
    if Refused(s, f, env) {
      LosesByAppend(s, f, Opening(f, env), Then(env.others(1), Restore(f)));
      RefusedLoses(n, s, f, env);
    } else {
      LosesByAppend(s, f, Opening(f, env), Inside(f, env, |s.buffer|));
      InsideLoses(n, t, f, env, s.buffer);
    }
  }
}
