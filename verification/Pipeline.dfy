/** The pipeline over the modelled SQL: which batches the recovery theorems
    apply to. What a statement text means is a parameter. */
module Pipeline {
  import opened Common
  import opened Codec
  import opened Recovery
  import opened Replay
  import opened SqlTables
  import opened StableBatches

  function SqlExec(meaning: Mutation -> Op): (exec: Recovery.Exec<Db>) {
    (db: Db, m: Mutation) => SqlTables.Exec(db, meaning(m))
  }

  function OpsOf(meaning: Mutation -> Op, batch: Batch): (ops: seq<Op>)
    ensures |ops| == |batch| && forall i :: 0 <= i < |batch| ==> ops[i] == meaning(batch[i])
  {
    seq(|batch|, i requires 0 <= i < |batch| => meaning(batch[i]))
  }

  lemma OpsOfAppend(meaning: Mutation -> Op, a: Batch, b: Batch)
    ensures OpsOf(meaning, a + b) == OpsOf(meaning, a) + OpsOf(meaning, b)
  {
  }

  lemma {:induction false} BatchRunsOps(meaning: Mutation -> Op, db: Db, batch: Batch)
    ensures RunBatch(SqlExec(meaning), db, batch) == RunOps(db, OpsOf(meaning, batch))
    decreases |batch|
  {
    if batch != [] {
      assert OpsOf(meaning, batch)[1..] == OpsOf(meaning, batch[1..]);
      match SqlTables.Exec(db, meaning(batch[0]))
      case Some(e) => BatchRunsOps(meaning, e, batch[1..]);
      case None =>
    }
  }

  lemma StableFromOps(meaning: Mutation -> Op, batch: Batch)
    requires StableOps(OpsOf(meaning, batch))
    ensures Stable(SqlExec(meaning), batch)
  {
    forall d, e | RunBatch(SqlExec(meaning), d, batch) == Some(e)
      ensures RunBatch(SqlExec(meaning), e, batch) == Some(e)
    {
      BatchRunsOps(meaning, d, batch);
      BatchRunsOps(meaning, e, batch);
    }
  }

  /** Batches without a row in common need no ordering. */
  lemma LateFromDisjoint(meaning: Mutation -> Op, a: Batch, b: Batch)
    requires Disjoint(OpsOf(meaning, a), OpsOf(meaning, b))
    ensures LateOk(SqlExec(meaning), a, b)
  {
    var exec := SqlExec(meaning);
    forall d: Db, e | Then(exec, RunBatch(exec, d, b), a) == Some(e)
      ensures Then(exec, RunBatch(exec, d, a), b) == Some(e)
    {
      BatchRunsOps(meaning, d, a);
      BatchRunsOps(meaning, d, b);
      BatchRunsOps(meaning, RunBatch(exec, d, b).value, a);
      DisjointCommute(d, OpsOf(meaning, a), OpsOf(meaning, b));
      BatchRunsOps(meaning, RunBatch(exec, d, a).value, b);
    }
  }

  /** All statements of all batches, in order. */
  function AllOps(meaning: Mutation -> Op, log: seq<Entry>): (ops: seq<Op>) {
    if log == [] then [] else AllOps(meaning, log[..|log| - 1]) + OpsOf(meaning, log[|log| - 1].batch)
  }

  lemma {:induction false} RunAllRunsOps(meaning: Mutation -> Op, db: Db, log: seq<Entry>)
    ensures RunAll(SqlExec(meaning), Some(db), Batches(log)) == RunOps(db, AllOps(meaning, log))
  {
    if log != [] {
      var init, last := log[..|log| - 1], log[|log| - 1].batch;
      RunAllRunsOps(meaning, db, init);
      assert Batches(log)[..|log| - 1] == Batches(init);
      RunOpsAppend(db, AllOps(meaning, init), OpsOf(meaning, last));
      var r := RunOps(db, AllOps(meaning, init));
      if r.Some? {
        BatchRunsOps(meaning, r.value, last);
      }
    }
  }

  /** Recovery over SQL: when every persisted batch is replay-stable SQL that
      survives its file, names are fresh and no commit passes an outstanding
      older file, an empty directory means that the database is what all
      statements ever persisted make of the initial one, each run once and in
      order, whatever failed or crashed on the way. */
  lemma SqlPipelineRecovers(meaning: Mutation -> Op, d0: Db, steps: seq<Step>, s: State<Db>)
    requires var exec := SqlExec(meaning);
             && FreshRun(exec, Init(d0, {}), steps) && OrderedRun(exec, Init(d0, {}), steps)
             && Run(exec, Init(d0, {}), steps) == Some(s)
    requires forall k :: 0 <= k < |steps| && steps[k].Persist? ==>
               StableOps(OpsOf(meaning, steps[k].batch)) && Keeps(steps[k].batch)
    requires s.dir == map[]
    ensures RunOps(d0, AllOps(meaning, s.log)) == Some(s.db)
  {
    forall k | 0 <= k < |steps| && steps[k].Persist?
      ensures Stable(SqlExec(meaning), steps[k].batch)
    {
      StableFromOps(meaning, steps[k].batch);
    }
    OrderedRecovery(SqlExec(meaning), d0, {}, steps, s);
    RunAllRunsOps(meaning, d0, s.log);
  }

  /** The same for batches of any mix of saves and parts of units, whoever they
      come from: it is enough that no statement generates an identifier and that
      the statements of each row settle. */
  lemma SettledBatchesRecover(meaning: Mutation -> Op, d0: Db, steps: seq<Step>, s: State<Db>)
    requires var exec := SqlExec(meaning);
             && FreshRun(exec, Init(d0, {}), steps) && OrderedRun(exec, Init(d0, {}), steps)
             && Run(exec, Init(d0, {}), steps) == Some(s)
    requires forall k :: 0 <= k < |steps| && steps[k].Persist? ==>
               && AllKeyed(OpsOf(meaning, steps[k].batch)) && EveryRowSettled(OpsOf(meaning, steps[k].batch))
               && Keeps(steps[k].batch)
    requires s.dir == map[]
    ensures RunOps(d0, AllOps(meaning, s.log)) == Some(s.db)
  {
    forall k | 0 <= k < |steps| && steps[k].Persist?
      ensures StableOps(OpsOf(meaning, steps[k].batch))
    {
      SettledBatchStable(OpsOf(meaning, steps[k].batch));
    }
    SqlPipelineRecovers(meaning, d0, steps, s);
  }

  /** Saving one column twice with different values, the second save after a
      failed first: although each batch is idempotent, some run ends with the
      older value. */
  lemma OvertakenSaveReverts(meaning: Mutation -> Op, m: Mutation, n: Mutation, k: Key, col: Column, v: Value, w: Value)
    requires Keeps([m]) && Keeps([n]) && v != w
    requires meaning(m) == Update(k, map[col := v]) && meaning(n) == Update(k, map[col := w])
    ensures AllGood(SqlExec(meaning), [[m], [n]])
    ensures !AlwaysRecovers(SqlExec(meaning), [[m], [n]])
  {
    SingleUpdateStable(meaning, m, k, map[col := v]);
    SingleUpdateStable(meaning, n, k, map[col := w]);
    UpdatesNotLate(meaning, m, n, k, col, v, w);
    TwoBatchesExact(SqlExec(meaning), [m], [n]);
  }

  lemma UpdatesNotLate(meaning: Mutation -> Op, m: Mutation, n: Mutation, k: Key, col: Column, v: Value, w: Value)
    requires meaning(m) == Update(k, map[col := v]) && meaning(n) == Update(k, map[col := w]) && v != w
    ensures !LateOk(SqlExec(meaning), [m], [n])
  {
    var exec := SqlExec(meaning);
    var blank := BlankRow(k.table);
    assert WellTyped(meaning(m));
    var d := Single(k, blank, Some(blank));
    UpdatesInOrder(meaning, n, m, d, k, col, w, v);
    UpdatesInOrder(meaning, m, n, d, k, col, v, w);
  }

  /** The later of two updates of a column decides it. */
  lemma UpdatesInOrder(meaning: Mutation -> Op, m: Mutation, n: Mutation, d: Db, k: Key, col: Column, v: Value,
                       w: Value)
    requires meaning(m) == Update(k, map[col := v]) && meaning(n) == Update(k, map[col := w])
    requires GetRow(d, k).Some?
    ensures var exec := SqlExec(meaning);
            var r := Then(exec, RunBatch(exec, d, [m]), [n]);
            r.Some? && GetRow(r.value, k).Some? && col in GetRow(r.value, k).value && GetRow(r.value, k).value[col] == w
  {
    SingleUpdateRow(meaning, m, d, k, map[col := v]);
    SingleUpdateRow(meaning, n, RunBatch(SqlExec(meaning), d, [m]).value, k, map[col := w]);
  }

  lemma SingleUpdateRow(meaning: Mutation -> Op, m: Mutation, d: Db, k: Key, cols: Row)
    requires meaning(m) == Update(k, cols) && GetRow(d, k).Some?
    ensures RunBatch(SqlExec(meaning), d, [m]).Some?
    ensures GetRow(RunBatch(SqlExec(meaning), d, [m]).value, k) == Some(GetRow(d, k).value + cols)
  {
    assert [m][1..] == [];
  }

  lemma SingleUpdateStable(meaning: Mutation -> Op, m: Mutation, k: Key, cols: Row)
    requires meaning(m) == Update(k, cols)
    ensures Stable(SqlExec(meaning), [m])
  {
    var ops := OpsOf(meaning, [m]);
    assert ops == [Update(k, cols)];
    forall j: Key, fill: Row
      ensures TableStable(j.table, On(j, ops), fill)
    {
      assert ops[1..] == [];
      WideUpsertsStable(On(j, ops), fill);
    }
    RowsMakeStable(ops);
    StableFromOps(meaning, [m]);
  }
}
