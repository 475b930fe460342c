/** The database CDR writer as the object its threads share. */
module DatabaseCdrWriters {
  import opened CdrBatching
  import opened Flushing

  class DatabaseCdrWriter {
    var history: seq<Rec>
    var buffer: seq<Rec>
    var threads: seq<Flusher>  // where each thread's `flush` is, with its local queue
    var committed: seq<Rec>
    var pending: seq<Rec>
    var inTx: bool
    var dropped: seq<Rec>

    function Snapshot(): State
      reads this
    {
      State(history, buffer, threads, committed, pending, inTx, dropped)
    }

    constructor (n: nat)
      ensures Snapshot() == Initial(n)
    {
      history, buffer, threads := [], [], seq(n, _ => Idle);
      committed, pending, inTx, dropped := [], [], false, [];
    }

    method WriteAction(imsi: string, action: string)
      modifies this
      ensures Snapshot() == Next(old(Snapshot()), Write(imsi, action))
    {
      var r := Rec(|history|, imsi, action);
      history := history + [r];
      buffer := buffer + [r];
    }

    // ----- The parts of a flush of thread `f` -----

    method TakeBuffer(f: nat)
      requires f < |threads| && threads[f].Idle? && buffer != []
      modifies this
      ensures Snapshot() == Next(old(Snapshot()), Swap(f))
    {
      threads, buffer := threads[f := Swapped(buffer)], [];
    }

    method BeginImmediate(f: nat, granted: bool) returns (ok: bool)
      requires f < |threads| && threads[f].Swapped?
      modifies this
      ensures Snapshot() == Next(old(Snapshot()), Begin(f, granted))
      ensures ok <==> granted && !old(inTx)
    {
      var q := threads[f].queue;
      ok := granted && !inTx;
      if ok {
        threads, inTx := threads[f := Inserting(q, q)], true;
      } else {
        threads := threads[f := Restoring(q)];
      }
    }

    method RestoreBuffer(f: nat)
      requires f < |threads| && threads[f].Restoring?
      modifies this
      ensures Snapshot() == Next(old(Snapshot()), Restore(f))
      ensures threads == old(threads[f := Idle])
    {
      dropped := dropped + buffer;
      buffer, threads := threads[f].queue, threads[f := Idle];
    }

    /** Outside a transaction the statement would commit by itself. */
    method InsertFront(f: nat, ok: bool)
      requires f < |threads| && threads[f].Inserting? && threads[f].queue != []
      modifies this
      ensures Snapshot() == Next(old(Snapshot()), Insert(f, ok))
      ensures threads == old(threads[f := if ok then Inserting(threads[f].batch, threads[f].queue[1..])
                                           else RollingBack(threads[f].batch, threads[f].queue)])
    {
      var batch, q := threads[f].batch, threads[f].queue;
      if !ok {
        threads := threads[f := RollingBack(batch, q)];
      } else {
        if inTx { pending := pending + [q[0]]; } else { committed := committed + [q[0]]; }
        threads := threads[f := Inserting(batch, q[1..])];
      }
    }

    method RollbackTransaction(f: nat, ok: bool)
      requires f < |threads| && threads[f].RollingBack?
      modifies this
      ensures Snapshot() == Next(old(Snapshot()), Rollback(f, ok))
      ensures threads == old(threads[f := Returning(threads[f].queue)])
    {
      if ok && inTx {
        dropped, pending, inTx := dropped + pending, [], false;
      }
      threads := threads[f := Returning(threads[f].queue)];
    }

    /** Pushes what is left back, one record at a time, under the mutex. */
    method ReturnRest(f: nat)
      requires f < |threads| && threads[f].Returning?
      modifies this
      ensures Snapshot() == Next(old(Snapshot()), Return(f))
      ensures threads == old(threads[f := Idle])
    {
      var toFlush := threads[f].queue;
      while |toFlush| > 0
        invariant buffer + toFlush == old(buffer + threads[f].queue)
        invariant unchanged(`history, `threads, `committed, `pending, `inTx, `dropped)
      {
        assert buffer + toFlush == buffer + [toFlush[0]] + toFlush[1..];
        buffer := buffer + [toFlush[0]];
        toFlush := toFlush[1..];
      }
      threads := threads[f := Idle];
    }

    method CommitTransaction(f: nat, result: CommitResult)
      requires f < |threads| && threads[f].Inserting? && threads[f].queue == []
      modifies this
      ensures Snapshot() == Next(old(Snapshot()), Commit(f, result))
      ensures threads == old(threads[f := Idle])
    {
      if inTx {
        match result {
          case Committed => committed, pending, inTx := committed + pending, [], false;
          case RolledBack => dropped, pending, inTx := dropped + pending, [], false;
          case LeftOpen =>
        }
      }
      threads := threads[f := Idle];
    }

    // ----- The other threads -----

    /** A step of any thread, if it fits where that thread is. */
    method Perform(step: Step)
      modifies this
      ensures Snapshot() == Next(old(Snapshot()), step)
    {
      match step
      case Write(imsi, action) => WriteAction(imsi, action);
      case Swap(f) => if f < |threads| && threads[f].Idle? && buffer != [] { TakeBuffer(f); }
      case Begin(f, granted) =>
        if f < |threads| && threads[f].Swapped? { var ok := BeginImmediate(f, granted); }
      case Restore(f) => if f < |threads| && threads[f].Restoring? { RestoreBuffer(f); }
      case Insert(f, ok) =>
        if f < |threads| && threads[f].Inserting? && threads[f].queue != [] { InsertFront(f, ok); }
      case Commit(f, result) =>
        if f < |threads| && threads[f].Inserting? && threads[f].queue == [] { CommitTransaction(f, result); }
      case Rollback(f, ok) => if f < |threads| && threads[f].RollingBack? { RollbackTransaction(f, ok); }
      case Return(f) => if f < |threads| && threads[f].Returning? { ReturnRest(f); }
    }

    /** What other threads do while thread `f` is between two of its own steps. */
    method OthersAct(f: nat, steps: seq<Step>)
      requires Foreign(f, steps) && f < |threads|
      modifies this
      ensures Snapshot() == Run(old(Snapshot()), steps)
      ensures |threads| == |old(threads)| && threads[f] == old(threads[f])
    {
      var i := 0;
      while i < |steps|
        invariant 0 <= i <= |steps| && Snapshot() == Run(old(Snapshot()), steps[..i])
      {
        Perform(steps[i]);
        RunSnoc(old(Snapshot()), steps[..i], steps[i]);
        assert steps[..i + 1] == steps[..i] + [steps[i]];
        i := i + 1;
      }
      assert steps[..i] == steps;
      ForeignKeeps(old(Snapshot()), f, steps);
      assert At(Snapshot(), f) == threads[f];
    }

    // ----- The flush -----

    /** From a failed INSERT on: the rollback, and what is left goes back. */
    method GiveUp(f: nat, env: FlushEnv, k: nat, ghost begin: State)
      requires OthersOnly(f, env) && f < |threads| && threads[f].RollingBack?
      requires Snapshot() == Next(Run(begin, env.others(k + 1)), Insert(f, false))
      modifies this
      ensures |threads| == |old(threads)| && threads[f] == Idle
      ensures Snapshot() == Run(begin, Failing(f, env, k))
    {
      OthersAct(f, env.others(k + 2));
      RollbackTransaction(f, env.rollbackOk);
      OthersAct(f, env.others(k + 3));
      ReturnRest(f);
      FailingInPieces(begin, f, env, k);
    }

    /** One INSERT after what others do before it. */
    method TryInsert(f: nat, env: FlushEnv, k: nat)
      requires OthersOnly(f, env) && f < |threads| && threads[f].Inserting? && threads[f].queue != []
      modifies this
      ensures Snapshot() == Next(Run(old(Snapshot()), env.others(k + 1)), Insert(f, env.insertOk(k)))
      ensures |threads| == |old(threads)|
      ensures if env.insertOk(k) then threads[f].Inserting? && |threads[f].queue| == |old(threads[f].queue)| - 1
              else threads[f].RollingBack?
    {
      OthersAct(f, env.others(k + 1));
      InsertFront(f, env.insertOk(k));
    }

    /** The INSERT that succeeds goes on with the batch, the one that fails ends it. */
    method InsertNext(f: nat, env: FlushEnv, k: nat, ghost begin: State)
      requires OthersOnly(f, env) && f < |threads| && threads[f].Inserting? && threads[f].queue != []
      requires Snapshot() == Run(begin, Insertions(f, env, k))
      modifies this
      ensures |threads| == |old(threads)|
      ensures if env.insertOk(k)
              then threads[f].Inserting? && |threads[f].queue| == |old(threads[f].queue)| - 1
                   && Snapshot() == Run(begin, Insertions(f, env, k + 1))
              else threads[f] == Idle && Snapshot() == Run(begin, Insertions(f, env, k) + Failing(f, env, k))
    {
      ghost var before := Snapshot();
      TryInsert(f, env, k);
      if env.insertOk(k) {
        InsertionStep(begin, f, env, k + 1);
      } else {
        GiveUp(f, env, k, before);
        RunAppend(begin, Insertions(f, env, k), Failing(f, env, k));
      }
    }

    method EndTransaction(f: nat, env: FlushEnv, n: nat)
      requires OthersOnly(f, env) && f < |threads| && threads[f].Inserting? && threads[f].queue == []
      modifies this
      ensures |threads| == |old(threads)| && threads[f] == Idle
      ensures Snapshot() == Run(old(Snapshot()), Then(env.others(n + 1), Commit(f, env.commit)))
    {
      OthersAct(f, env.others(n + 1));
      CommitTransaction(f, env.commit);
      RunSnoc(old(Snapshot()), env.others(n + 1), Commit(f, env.commit));
    }

    /** Inserts the batch inside the open transaction and ends it. */
    method InsertBatch(f: nat, env: FlushEnv)
      requires OthersOnly(f, env) && f < |threads| && threads[f].Inserting?
      modifies this
      ensures |threads| == |old(threads)| && threads[f] == Idle
      ensures Snapshot() == Run(old(Snapshot()), Inside(f, env, |old(threads[f].queue)|))
    {
      ghost var begin := Snapshot();
      ghost var n := |threads[f].queue|;
      var inserted := 0;
      while |threads[f].queue| > 0
        invariant |threads| == |old(threads)| && threads[f].Inserting? && inserted + |threads[f].queue| == n
        invariant FirstBad(env.insertOk, inserted, n) == FirstBad(env.insertOk, 0, n)
        invariant Snapshot() == Run(begin, Insertions(f, env, inserted))
        decreases |threads[f].queue|
      {
        InsertNext(f, env, inserted, begin);
        if !env.insertOk(inserted) {
          assert FirstBad(env.insertOk, 0, n) == inserted;
          return;
        }
        inserted := inserted + 1;
      }
      assert FirstBad(env.insertOk, 0, n) == inserted == n;
      EndTransaction(f, env, inserted);
      RunAppend(begin, Insertions(f, env, n), Then(env.others(n + 1), Commit(f, env.commit)));
    }

    /** The swap and BEGIN. */
    method Open(f: nat, env: FlushEnv) returns (ok: bool)
      requires OthersOnly(f, env) && f < |threads| && threads[f].Idle? && buffer != []
      modifies this
      ensures Snapshot() == Run(old(Snapshot()), Opening(f, env))
      ensures ok <==> !Refused(old(Snapshot()), f, env)
      ensures |threads| == |old(threads)|
      ensures threads[f] == if ok then Inserting(old(buffer), old(buffer)) else Restoring(old(buffer))
    {
      TakeBuffer(f);
      OthersAct(f, env.others(0));
      ok := BeginImmediate(f, env.granted);
      OpeningInPieces(old(Snapshot()), f, env);
    }

    /** One flush from beginning to end. */
    method Flush(f: nat, env: FlushEnv)
      requires OthersOnly(f, env) && f < |threads| && threads[f].Idle?
      modifies this
      ensures Snapshot() == Run(old(Snapshot()), Script(old(Snapshot()), f, env))
      ensures |threads| == |old(threads)| && threads[f] == Idle
    {
      if buffer == [] { return; }
      ghost var begin := Snapshot();
      var ok := Open(f, env);
      ghost var opened' := Snapshot();
      if ok {
        InsertBatch(f, env);
        RunAppend(begin, Opening(f, env), Inside(f, env, |begin.buffer|));
      } else {
        OthersAct(f, env.others(1));
        RestoreBuffer(f);
        RunSnoc(opened', env.others(1), Restore(f));
        RunAppend(begin, Opening(f, env), Then(env.others(1), Restore(f)));
      }
    }
  }
}
