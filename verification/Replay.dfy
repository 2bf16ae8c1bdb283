/** Which runs are legal without looking at the SQL, and what the guard is
    needed for. */
module Replay {
  import opened Common
  import opened Uuid
  import opened Codec
  import opened WalFile
  import opened Recovery
  import opened FileOrder

  // ------------------------------------------------------------ ordered runs

  /** No batch commits while an older file is outstanding. */
  ghost predicate InOrder<D>(s: State<D>, step: Step) {
    (step.Commit? || step.CommitUnclear?) && s.worker.Holding? && s.worker.i < |s.log| ==>
      forall j :: 0 <= j < s.worker.i ==> !Outstanding(s, j)
  }

  ghost predicate OrderedRun<D>(exec: Exec<D>, s: State<D>, steps: seq<Step>)
    decreases |steps|
  {
    steps == [] ||
    (InOrder(s, steps[0]) && match Next(exec, s, steps[0])
                             case Some(t) => OrderedRun(exec, t, steps[1..])
                             case None => true)
  }

  /** Every batch persisted in the run is stable and comes back from disk. */
  ghost predicate GoodBatches<D(!new)>(exec: Exec<D>, steps: seq<Step>) {
    forall k :: 0 <= k < |steps| && steps[k].Persist? ==> Stable(exec, steps[k].batch) && Keeps(steps[k].batch)
  }

  lemma {:induction false} OrderedIsLegal<D(!new)>(exec: Exec<D>, s: State<D>, steps: seq<Step>)
    requires OrderedRun(exec, s, steps) && FreshRun(exec, s, steps) && GoodBatches(exec, steps)
    ensures LegalRun(exec, s, steps)
    decreases |steps|
  {
    if steps != [] {
      assert steps[0].Persist? ==> Stable(exec, steps[0].batch) && Keeps(steps[0].batch);
      assert Legal(exec, s, steps[0]);
      match Next(exec, s, steps[0])
      case Some(t) =>
        assert GoodBatches(exec, steps[1..]) by {
          forall k | 0 <= k < |steps[1..]| && steps[1..][k].Persist?
            ensures Stable(exec, steps[1..][k].batch) && Keeps(steps[1..][k].batch)
          {
            assert steps[1..][k] == steps[k + 1];
          }
        }
        OrderedIsLegal(exec, t, steps[1..]);
      case None =>
    }
  }

  /** Recovery under the condition the worker's design aims at: stable
      batches, fresh names, and no commit past an outstanding older file. */
  lemma OrderedRecovery<D(!new)>(exec: Exec<D>, d0: D, audit: set<Bytes16>, steps: seq<Step>, s: State<D>)
    requires FreshRun(exec, Init(d0, audit), steps) && OrderedRun(exec, Init(d0, audit), steps)
    requires GoodBatches(exec, steps) && Run(exec, Init(d0, audit), steps) == Some(s)
    requires s.dir == map[]
    ensures RunAll(exec, Some(d0), Batches(s.log)) == Some(s.db)
  {
    OrderedIsLegal(exec, Init(d0, audit), steps);
    CrashRecovery(exec, d0, audit, steps, s);
  }

  // ------------------------------------------- what the guard is needed for

  lemma {:induction false} LogGrows<D>(exec: Exec<D>, s: State<D>, steps: seq<Step>, t: State<D>)
    requires Run(exec, s, steps) == Some(t)
    ensures s.log <= t.log
    decreases |steps|
  {
    if steps != [] {
      LogGrows(exec, Next(exec, s, steps[0]).value, steps[1..], t);
    }
  }

  ghost predicate EveryPairLateOk<D(!new)>(exec: Exec<D>, bs: seq<Batch>) {
    forall j, i :: 0 <= j < i < |bs| ==> LateOk(exec, bs[j], bs[i])
  }

  ghost predicate AllGood<D(!new)>(exec: Exec<D>, bs: seq<Batch>) {
    forall i :: 0 <= i < |bs| ==> Stable(exec, bs[i]) && Keeps(bs[i])
  }

  lemma {:induction false} PairsMakeLegal<D(!new)>(exec: Exec<D>, s: State<D>, steps: seq<Step>, t: State<D>)
    requires FreshRun(exec, s, steps) && Run(exec, s, steps) == Some(t)
    requires AllGood(exec, Batches(t.log)) && EveryPairLateOk(exec, Batches(t.log))
    ensures LegalRun(exec, s, steps)
    decreases |steps|
  {
    if steps != [] {
      var m := Next(exec, s, steps[0]).value;
      LogGrows(exec, s, steps, t);
      LogGrows(exec, m, steps[1..], t);
      var bs := Batches(t.log);
      if steps[0].Persist? {
        assert bs[|s.log|] == steps[0].batch;
      }
      forall j, i | 0 <= j < i < |s.log|
        ensures LateOk(exec, s.log[j].batch, s.log[i].batch)
      {
        assert LateOk(exec, bs[j], bs[i]);
      }
      PairsMakeLegal(exec, m, steps[1..], t);
    }
  }

  /** A run that empties the directory and leaves the wrong database. */
  ghost predicate GoesWrong<D>(exec: Exec<D>, d0: D, steps: seq<Step>, s: State<D>, bs: seq<Batch>) {
    && FreshRun(exec, Init(d0, {}), steps) && Run(exec, Init(d0, {}), steps) == Some(s)
    && Batches(s.log) == bs && s.dir == map[]
    && RunAll(exec, Some(d0), bs) != Some(s.db)
  }

  ghost predicate AlwaysRecovers<D(!new)>(exec: Exec<D>, bs: seq<Batch>) {
    forall d0, steps, s :: !GoesWrong(exec, d0, steps, s, bs)
  }

  /** Without any ordering rule, batches that may all come late recover. */
  lemma PairsRecover<D(!new)>(exec: Exec<D>, bs: seq<Batch>)
    requires AllGood(exec, bs) && EveryPairLateOk(exec, bs)
    ensures AlwaysRecovers(exec, bs)
  {
    forall d0, steps, s
      ensures !GoesWrong(exec, d0, steps, s, bs)
    {
      if GoesWrong(exec, d0, steps, s, bs) {
        PairsMakeLegal(exec, Init(d0, {}), steps, s);
        CrashRecovery(exec, d0, {}, steps, s);
      }
    }
  }

  lemma {:induction false} RunAppend<D>(exec: Exec<D>, s: State<D>, a: seq<Step>, b: seq<Step>, t: State<D>)
    requires Run(exec, s, a) == Some(t)
    ensures Run(exec, s, a + b) == Run(exec, t, b)
    ensures FreshRun(exec, s, a) && FreshRun(exec, t, b) ==> FreshRun(exec, s, a + b)
    ensures OrderedRun(exec, s, a + b) <==> OrderedRun(exec, s, a) && OrderedRun(exec, t, b)
    decreases |a|
  {
    if a == [] {
      assert a + b == b;
    } else {
      assert (a + b)[0] == a[0] && (a + b)[1..] == a[1..] + b;
      RunAppend(exec, Next(exec, s, a[0]).value, a[1..], b, t);
    }
  }

  lemma OneStep<D>(exec: Exec<D>, s: State<D>, step: Step, t: State<D>)
    requires Next(exec, s, step) == Some(t)
    ensures Run(exec, s, [step]) == Some(t)
    ensures FreshName(s, step) ==> FreshRun(exec, s, [step])
    ensures OrderedRun(exec, s, [step]) <==> InOrder(s, step)
  {
    assert [step][1..] == [];
  }

  /** A crash may end any run; it loses what the worker held and nothing else,
      and recovery puts no condition on it. */
  lemma {:induction false} CrashAnywhere<D(!new)>(exec: Exec<D>, s: State<D>, steps: seq<Step>, t: State<D>)
    requires Run(exec, s, steps) == Some(t)
    ensures Run(exec, s, steps + [Crash]) == Some(t.(worker := Idle))
    ensures LegalRun(exec, s, steps) ==> LegalRun(exec, s, steps + [Crash])
    decreases |steps|
  {
    if steps == [] {
      OneStep(exec, s, Crash, s.(worker := Idle));
      assert [] + [Crash] == [Crash];
    } else {
      assert (steps + [Crash])[0] == steps[0] && (steps + [Crash])[1..] == steps[1..] + [Crash];
      CrashAnywhere(exec, Next(exec, s, steps[0]).value, steps[1..], t);
    }
  }

  /** A batch persisted under a fresh name whose commit fails. */
  lemma PersistThenFail<D>(exec: Exec<D>, s: State<D>, name: string, batch: Batch, t: State<D>)
    requires s.worker.Idle? && FreshName(s, Persist(name, batch))
    requires t == s.(log := s.log + [Entry(name, batch)], dir := s.dir[name := FileText(batch)])
    ensures Run(exec, s, [Persist(name, batch), CommitFails]) == Some(t)
    ensures FreshRun(exec, s, [Persist(name, batch), CommitFails])
  {
    var m := t.(worker := Holding(|s.log|, batch));
    OneStep(exec, s, Persist(name, batch), m);
    OneStep(exec, m, CommitFails, t);
    RunAppend(exec, s, [Persist(name, batch)], [CommitFails], m);
    assert [Persist(name, batch)] + [CommitFails] == [Persist(name, batch), CommitFails];
  }

  /** The state after batch `i` is committed and its file unlinked. */
  function Finished<D>(s: State<D>, i: nat, batch: Batch, e: D): (t: State<D>)
    requires i < |s.log|
  {
    s.(done := s.done + {i}, dir := s.dir - {s.log[i].name}, db := e, audit := s.audit + Ids(batch), worker := Idle)
  }

  lemma CommitThenUnlink<D>(exec: Exec<D>, s: State<D>, e: D)
    requires s.worker.Holding? && s.worker.i < |s.log|
    requires RunBatch(exec, s.db, s.worker.batch) == Some(e)
    ensures Run(exec, s, [Commit, Unlink]) == Some(Finished(s, s.worker.i, s.worker.batch, e))
    ensures FreshRun(exec, s, [Commit, Unlink])
    ensures OrderedRun(exec, s, [Commit, Unlink]) <==> InOrder(s, Commit)
  {
    var t := Finished(s, s.worker.i, s.worker.batch, e);
    var m := t.(dir := s.dir, worker := Applied(s.worker.i));
    OneStep(exec, s, Commit, m);
    OneStep(exec, m, Unlink, t);
    RunAppend(exec, s, [Commit], [Unlink], m);
    assert [Commit] + [Unlink] == [Commit, Unlink];
  }

  lemma LoadsBack<D>(exec: Exec<D>, s: State<D>, i: nat, b: Batch)
    requires s.worker.Idle? && i < |s.log| && Outstanding(s, i)
    requires ReadBack(s.dir[s.log[i].name]) == Ok(b)
    ensures Run(exec, s, [Load(i)]) == Some(s.(worker := Holding(i, b)))
    ensures FreshRun(exec, s, [Load(i)]) && OrderedRun(exec, s, [Load(i)])
  {
    OneStep(exec, s, Load(i), s.(worker := Holding(i, b)));
  }

  /** One file replayed to its end. */
  lemma LoadCommitUnlink<D>(exec: Exec<D>, s: State<D>, i: nat, b: Batch, e: D)
    requires s.worker.Idle? && i < |s.log| && Outstanding(s, i)
    requires ReadBack(s.dir[s.log[i].name]) == Ok(b) && RunBatch(exec, s.db, b) == Some(e)
    ensures Run(exec, s, [Load(i)] + [Commit, Unlink]) == Some(Finished(s, i, b, e))
    ensures FreshRun(exec, s, [Load(i)] + [Commit, Unlink])
    ensures (forall j :: 0 <= j < i ==> !Outstanding(s, j)) ==>
              OrderedRun(exec, s, [Load(i)] + [Commit, Unlink])
  {
    var m := s.(worker := Holding(i, b));
    LoadsBack(exec, s, i, b);
    CommitThenUnlink(exec, m, e);
    assert (forall j :: 0 <= j < i ==> !Outstanding(s, j)) ==> InOrder(m, Commit) by {
      assert forall j :: 0 <= j < i ==> Outstanding(m, j) == Outstanding(s, j);
    }
    RunAppend(exec, s, [Load(i)], [Commit, Unlink], m);
  }

  const FIRST := "a"
  const SECOND := "b"

  function FailSteps(a: Batch): (steps: seq<Step>) { [Persist(FIRST, a), CommitFails] }
  function OvertakeSteps(b: Batch): (steps: seq<Step>) { [Persist(SECOND, b)] + [Commit, Unlink] }
  function ReplaySteps(): (steps: seq<Step>) { [Crash] + ([Load(0)] + [Commit, Unlink]) }

  /** The first commit fails, the second batch commits, the server restarts
      and replays the first. */
  function LateSteps(a: Batch, b: Batch): (steps: seq<Step>) {
    FailSteps(a) + (OvertakeSteps(b) + ReplaySteps())
  }

  lemma LateFirst<D>(exec: Exec<D>, d0: D, a: Batch, t: State<D>)
    requires t == State([Entry(FIRST, a)], {}, map[FIRST := FileText(a)], d0, {}, Idle)
    ensures Run(exec, Init(d0, {}), FailSteps(a)) == Some(t) && FreshRun(exec, Init(d0, {}), FailSteps(a))
  {
    var s: State<D> := Init(d0, {});
    assert s.log + [Entry(FIRST, a)] == t.log;
    PersistThenFail(exec, s, FIRST, a, t);
  }

  lemma LateSecond<D>(exec: Exec<D>, s: State<D>, b: Batch, d: D, t: State<D>)
    requires |s.log| == 1 && s.log[0].name == FIRST && s.worker.Idle? && SECOND !in s.dir
    requires RunBatch(exec, s.db, b) == Some(d)
    requires t == s.(log := s.log + [Entry(SECOND, b)], done := s.done + {1}, db := d, audit := s.audit + Ids(b))
    ensures Run(exec, s, OvertakeSteps(b)) == Some(t) && FreshRun(exec, s, OvertakeSteps(b))
  {
    var m := s.(log := t.log, dir := s.dir[SECOND := FileText(b)], worker := Holding(1, b));
    OneStep(exec, s, Persist(SECOND, b), m);
    CommitThenUnlink(exec, m, d);
    assert m.dir - {SECOND} == s.dir;
    assert Finished(m, 1, b, d) == t;
    RunAppend(exec, s, [Persist(SECOND, b)], [Commit, Unlink], m);
  }

  lemma LateThird<D>(exec: Exec<D>, s: State<D>, a: Batch, text: string, e: D, t: State<D>)
    requires |s.log| >= 1 && s.log[0].name == FIRST && s.worker.Idle?
    requires s.dir == map[FIRST := text] && ReadBack(text) == Ok(a)
    requires RunBatch(exec, s.db, a) == Some(e)
    requires t == s.(done := s.done + {0}, dir := map[], db := e, audit := s.audit + Ids(a))
    ensures Run(exec, s, ReplaySteps()) == Some(t) && FreshRun(exec, s, ReplaySteps())
  {
    OneStep(exec, s, Crash, s);
    LoadCommitUnlink(exec, s, 0, a, e);
    assert s.dir - {FIRST} == map[];
    RunAppend(exec, s, [Crash], [Load(0)] + [Commit, Unlink], s);
  }

  lemma LateRest<D>(exec: Exec<D>, s: State<D>, a: Batch, b: Batch, text: string, e: D, t: State<D>)
    requires s.log == [Entry(FIRST, a)] && s.dir == map[FIRST := text] && s.worker.Idle?
    requires ReadBack(text) == Ok(a) && Then(exec, RunBatch(exec, s.db, b), a) == Some(e)
    requires t == s.(log := s.log + [Entry(SECOND, b)], done := s.done + {1} + {0}, dir := map[], db := e,
                     audit := s.audit + Ids(b) + Ids(a))
    ensures Run(exec, s, OvertakeSteps(b) + ReplaySteps()) == Some(t)
    ensures FreshRun(exec, s, OvertakeSteps(b) + ReplaySteps())
  {
    var d := RunBatch(exec, s.db, b).value;
    var m := s.(log := t.log, done := s.done + {1}, db := d, audit := s.audit + Ids(b));
    LateSecond(exec, s, b, d, m);
    LateThird(exec, m, a, text, e, t);
    RunAppend(exec, s, OvertakeSteps(b), ReplaySteps(), m);
  }

  /** The worker carries on past a failed commit, so an old file may be
      replayed over newer state: the database ends as `b` then `a`. */
  lemma LateReplay<D>(exec: Exec<D>, d0: D, a: Batch, b: Batch, e: D) returns (s: State<D>)
    requires Keeps(a) && Then(exec, RunBatch(exec, d0, b), a) == Some(e)
    ensures FreshRun(exec, Init(d0, {}), LateSteps(a, b))
    ensures Run(exec, Init(d0, {}), LateSteps(a, b)) == Some(s)
    ensures Batches(s.log) == [a, b] && s.dir == map[] && s.db == e
  {
    KeepsReadsBack(a);
    var s1 := State([Entry(FIRST, a)], {}, map[FIRST := FileText(a)], d0, {}, Idle);
    s := s1.(log := s1.log + [Entry(SECOND, b)], done := {} + {1} + {0}, dir := map[], db := e,
             audit := {} + Ids(b) + Ids(a));
    LateFirst(exec, d0, a, s1);
    LateRest(exec, s1, a, b, FileText(a), e, s);
    RunAppend(exec, Init(d0, {}), FailSteps(a), OvertakeSteps(b) + ReplaySteps(), s1);
  }

  /** The exact condition for two batches: every run, over every database,
      with any failures and crashes, recovers if and only if the first may be
      applied after the second. */
  lemma TwoBatchesExact<D(!new)>(exec: Exec<D>, a: Batch, b: Batch)
    requires AllGood(exec, [a, b])
    ensures AlwaysRecovers(exec, [a, b]) <==> LateOk(exec, a, b)
  {
    var bs := [a, b];
    assert Keeps(bs[0]);
    if LateOk(exec, a, b) {
      PairsRecover(exec, bs);
    } else {
      var d: D, e :| Then(exec, RunBatch(exec, d, b), a) == Some(e)
                     && Then(exec, RunBatch(exec, d, a), b) != Some(e);
      var s := LateReplay(exec, d, a, b, e);
      RunTwo(exec, d, a, b);
      assert GoesWrong(exec, d, LateSteps(a, b), s, bs);
    }
  }

  lemma RunTwo<D>(exec: Exec<D>, d: D, a: Batch, b: Batch)
    ensures RunAll(exec, Some(d), [a, b]) == Then(exec, RunBatch(exec, d, a), b)
  {
    var bs := [a, b];
    assert bs[..1] == [a] && [a][..0] == [];
    assert RunAll(exec, Some(d), [a]) == RunBatch(exec, d, a);
  }

  // ------------------------------------------------------------- one batch

  /** The commit takes effect and is reported as an error; the server restarts
      and replays the file. */
  function AgainSteps(a: Batch): (steps: seq<Step>) {
    [Persist(FIRST, a), CommitUnclear] + ReplaySteps()
  }

  /** Where a second application is not rejected it changes nothing. */
  ghost predicate AgainOk<D(!new)>(exec: Exec<D>, a: Batch) {
    forall d, e, f :: RunBatch(exec, d, a) == Some(e) && RunBatch(exec, e, a) == Some(f) ==> f == e
  }

  lemma PersistThenUnclear<D>(exec: Exec<D>, s: State<D>, name: string, a: Batch, d: D, t: State<D>)
    requires s.worker.Idle? && FreshName(s, Persist(name, a)) && RunBatch(exec, s.db, a) == Some(d)
    requires t == s.(log := s.log + [Entry(name, a)], dir := s.dir[name := FileText(a)],
                     done := s.done + {|s.log|}, db := d, audit := s.audit + Ids(a))
    ensures Run(exec, s, [Persist(name, a), CommitUnclear]) == Some(t)
    ensures FreshRun(exec, s, [Persist(name, a), CommitUnclear])
  {
    var m := s.(log := t.log, dir := t.dir, worker := Holding(|s.log|, a));
    OneStep(exec, s, Persist(name, a), m);
    OneStep(exec, m, CommitUnclear, t);
    RunAppend(exec, s, [Persist(name, a)], [CommitUnclear], m);
    assert [Persist(name, a)] + [CommitUnclear] == [Persist(name, a), CommitUnclear];
  }

  /** The audit is never consulted: a batch whose commit was unclear is
      applied a second time, to the database it has made itself. */
  lemma AppliedTwice<D>(exec: Exec<D>, d0: D, a: Batch, d: D, e: D) returns (s: State<D>)
    requires Keeps(a) && RunBatch(exec, d0, a) == Some(d) && RunBatch(exec, d, a) == Some(e)
    ensures FreshRun(exec, Init(d0, {}), AgainSteps(a))
    ensures Run(exec, Init(d0, {}), AgainSteps(a)) == Some(s)
    ensures Batches(s.log) == [a] && s.dir == map[] && s.db == e && s.audit == Ids(a)
  {
    KeepsReadsBack(a);
    var m := State([Entry(FIRST, a)], {0}, map[FIRST := FileText(a)], d, Ids(a), Idle);
    s := m.(dir := map[], db := e, done := {0} + {0}, audit := Ids(a) + Ids(a));
    assert [] + [Entry(FIRST, a)] == m.log && {} + {0} == m.done && {} + Ids(a) == m.audit;
    PersistThenUnclear(exec, Init(d0, {}), FIRST, a, d, m);
    LateThird(exec, m, a, FileText(a), e, s);
    RunAppend(exec, Init(d0, {}), [Persist(FIRST, a), CommitUnclear], ReplaySteps(), m);
  }

  /** Only `a` was persisted, and the database is as before it or as after
      one application of it. */
  ghost predicate OnlyOne<D>(exec: Exec<D>, d0: D, a: Batch, s: State<D>) {
    && Safe(s) && |s.log| <= 1 && (|s.log| == 1 ==> s.log[0].batch == a)
    && (s.worker.Holding? ==> s.worker.batch == a)
    && (if 0 in s.done then RunBatch(exec, d0, a) == Some(s.db) else s.db == d0)
  }

  lemma OnlyOneStep<D(!new)>(exec: Exec<D>, d0: D, a: Batch, s: State<D>, step: Step, t: State<D>)
    requires Keeps(a) && AgainOk(exec, a) && OnlyOne(exec, d0, a, s)
    requires FreshName(s, step) && Next(exec, s, step) == Some(t) && |t.log| <= 1
    requires step.Persist? ==> step.batch == a
    ensures OnlyOne(exec, d0, a, t)
  {
    SafeStep(exec, s, step, t);
    match step
    case Persist(name, batch) =>
    case Load(i) => KeepsReadsBack(a);
    case Commit => OnlyOneTransact(exec, d0, a, s, Applied(s.worker.i), t);
    case CommitUnclear => OnlyOneTransact(exec, d0, a, s, Idle, t);
    case _ =>
  }

  lemma OnlyOneTransact<D(!new)>(exec: Exec<D>, d0: D, a: Batch, s: State<D>, w: Worker, t: State<D>)
    requires AgainOk(exec, a) && OnlyOne(exec, d0, a, s) && Transact(exec, s, w) == Some(t)
    ensures 0 in t.done && RunBatch(exec, d0, a) == Some(t.db)
  {
  }

  lemma {:induction false} OnlyOneRun<D(!new)>(exec: Exec<D>, d0: D, a: Batch, s: State<D>, steps: seq<Step>,
                                                     t: State<D>)
    requires Keeps(a) && AgainOk(exec, a) && OnlyOne(exec, d0, a, s)
    requires FreshRun(exec, s, steps) && Run(exec, s, steps) == Some(t) && Batches(t.log) == [a]
    ensures OnlyOne(exec, d0, a, t)
    decreases |steps|
  {
    if steps != [] {
      var m := Next(exec, s, steps[0]).value;
      LogGrows(exec, m, steps[1..], t);
      assert steps[0].Persist? ==> Batches(t.log)[|s.log|] == steps[0].batch;
      OnlyOneStep(exec, d0, a, s, steps[0], m);
      OnlyOneRun(exec, d0, a, m, steps[1..], t);
    }
  }

  lemma OnlyOneEmptied<D>(exec: Exec<D>, d0: D, a: Batch, s: State<D>)
    requires OnlyOne(exec, d0, a, s) && Batches(s.log) == [a] && s.dir == map[]
    ensures RunAll(exec, Some(d0), [a]) == Some(s.db)
  {
    RunOne(exec, d0, a);
    assert |s.log| == |Batches(s.log)|;
    assert !OnDisk(s, 0);
  }

  /** The exact condition for one batch: every run, over every database, with
      any failures and crashes, recovers if and only if a second application
      changes nothing where it is not rejected. */
  lemma OneBatchExact<D(!new)>(exec: Exec<D>, a: Batch)
    requires Keeps(a)
    ensures AlwaysRecovers(exec, [a]) <==> AgainOk(exec, a)
  {
    if AgainOk(exec, a) {
      forall d0, steps, s
        ensures !GoesWrong(exec, d0, steps, s, [a])
      {
        if GoesWrong(exec, d0, steps, s, [a]) {
          OnlyOneRun(exec, d0, a, Init(d0, {}), steps, s);
          OnlyOneEmptied(exec, d0, a, s);
        }
      }
    } else {
      var d0: D, d, e :| RunBatch(exec, d0, a) == Some(d) && RunBatch(exec, d, a) == Some(e) && e != d;
      var s := AppliedTwice(exec, d0, a, d, e);
      RunOne(exec, d0, a);
      assert GoesWrong(exec, d0, AgainSteps(a), s, [a]);
    }
  }

  lemma RunOne<D>(exec: Exec<D>, d: D, a: Batch)
    ensures RunAll(exec, Some(d), [a]) == RunBatch(exec, d, a)
  {
    assert [a][..0] == [];
  }

  // ----------------------------------------------------- one millisecond

  function BothFail(older: string, a: Batch, younger: string, b: Batch): (steps: seq<Step>) {
    [Persist(older, a), CommitFails] + [Persist(younger, b), CommitFails]
  }

  function YoungerFirst(): (steps: seq<Step>) {
    ([Load(1)] + [Commit, Unlink]) + ([Load(0)] + [Commit, Unlink])
  }

  /** Both commits fail, the server restarts and replays the younger batch
      first. */
  function BackwardSteps(older: string, a: Batch, younger: string, b: Batch): (steps: seq<Step>) {
    BothFail(older, a, younger, b) + ([Crash] + YoungerFirst())
  }

  lemma YoungerDone<D>(exec: Exec<D>, s: State<D>, b: Batch, ta: string, tb: string, d: D, m: State<D>)
    requires |s.log| == 2 && s.log[0].name != s.log[1].name && s.worker.Idle?
    requires s.dir == map[s.log[0].name := ta, s.log[1].name := tb]
    requires ReadBack(tb) == Ok(b) && RunBatch(exec, s.db, b) == Some(d)
    requires m == s.(done := s.done + {1}, dir := map[s.log[0].name := ta], db := d, audit := s.audit + Ids(b))
    ensures Run(exec, s, [Load(1)] + [Commit, Unlink]) == Some(m) && FreshRun(exec, s, [Load(1)] + [Commit, Unlink])
  {
    LoadCommitUnlink(exec, s, 1, b, d);
    assert s.dir - {s.log[1].name} == m.dir;
  }

  lemma OlderDone<D>(exec: Exec<D>, s: State<D>, a: Batch, ta: string, e: D, t: State<D>)
    requires |s.log| == 2 && s.worker.Idle? && s.dir == map[s.log[0].name := ta]
    requires ReadBack(ta) == Ok(a) && RunBatch(exec, s.db, a) == Some(e)
    requires t == s.(done := s.done + {0}, dir := map[], db := e, audit := s.audit + Ids(a))
    ensures Run(exec, s, [Load(0)] + [Commit, Unlink]) == Some(t) && FreshRun(exec, s, [Load(0)] + [Commit, Unlink])
  {
    LoadCommitUnlink(exec, s, 0, a, e);
    assert s.dir - {s.log[0].name} == map[];
  }

  lemma BackwardReplay<D>(exec: Exec<D>, s: State<D>, a: Batch, b: Batch, ta: string, tb: string, d: D, e: D)
    returns (t: State<D>)
    requires |s.log| == 2 && s.log[0].name != s.log[1].name && s.worker.Idle?
    requires s.dir == map[s.log[0].name := ta, s.log[1].name := tb]
    requires ReadBack(ta) == Ok(a) && ReadBack(tb) == Ok(b)
    requires RunBatch(exec, s.db, b) == Some(d) && RunBatch(exec, d, a) == Some(e)
    ensures Run(exec, s, [Crash] + YoungerFirst()) == Some(t) && FreshRun(exec, s, [Crash] + YoungerFirst())
    ensures t.log == s.log && t.dir == map[] && t.db == e
  {
    var m := s.(done := s.done + {1}, dir := map[s.log[0].name := ta], db := d, audit := s.audit + Ids(b));
    t := m.(done := m.done + {0}, dir := map[], db := e, audit := m.audit + Ids(a));
    YoungerDone(exec, s, b, ta, tb, d, m);
    OlderDone(exec, m, a, ta, e, t);
    RunAppend(exec, s, [Load(1)] + [Commit, Unlink], [Load(0)] + [Commit, Unlink], m);
    OneStep(exec, s, Crash, s);
    RunAppend(exec, s, [Crash], YoungerFirst(), s);
  }

  lemma BothFailRuns<D>(exec: Exec<D>, d0: D, older: string, a: Batch, younger: string, b: Batch, s: State<D>)
    requires older != younger
    requires s == State([Entry(older, a), Entry(younger, b)], {},
                        map[older := FileText(a), younger := FileText(b)], d0, {}, Idle)
    ensures Run(exec, Init(d0, {}), BothFail(older, a, younger, b)) == Some(s)
    ensures FreshRun(exec, Init(d0, {}), BothFail(older, a, younger, b))
  {
    var s0: State<D> := Init(d0, {});
    var s1 := s0.(log := [Entry(older, a)], dir := map[older := FileText(a)]);
    assert s0.log + [Entry(older, a)] == s1.log && s1.log + [Entry(younger, b)] == s.log;
    assert s0.dir[older := FileText(a)] == s1.dir && s1.dir[younger := FileText(b)] == s.dir;
    PersistThenFail(exec, s0, older, a, s1);
    PersistThenFail(exec, s1, younger, b, s);
    RunAppend(exec, s0, [Persist(older, a), CommitFails], [Persist(younger, b), CommitFails], s1);
  }

  lemma BackwardRuns<D>(exec: Exec<D>, d0: D, older: string, a: Batch, younger: string, b: Batch, d: D, e: D)
    returns (s: State<D>)
    requires older != younger && Keeps(a) && Keeps(b)
    requires RunBatch(exec, d0, b) == Some(d) && RunBatch(exec, d, a) == Some(e)
    ensures Run(exec, Init(d0, {}), BackwardSteps(older, a, younger, b)) == Some(s)
    ensures FreshRun(exec, Init(d0, {}), BackwardSteps(older, a, younger, b))
    ensures s.log == [Entry(older, a), Entry(younger, b)] && s.dir == map[] && s.db == e
  {
    KeepsReadsBack(a);
    KeepsReadsBack(b);
    var ta, tb := FileText(a), FileText(b);
    var m := State([Entry(older, a), Entry(younger, b)], {}, map[older := ta, younger := tb], d0, {}, Idle);
    BothFailRuns(exec, d0, older, a, younger, b, m);
    s := BackwardReplay(exec, m, a, b, ta, tb, d, e);
    RunAppend(exec, Init(d0, {}), BothFail(older, a, younger, b), [Crash] + YoungerFirst(), m);
  }

  /** Two batches of one millisecond whose names sort against the order of
      persisting, both left over: the replay in name order leaves the database
      as the younger batch and then the older one make it. */
  lemma SameMillisecondReverts<D>(exec: Exec<D>, d0: D, ts: u64, a: Batch, b: Batch, d: D, e: D)
    returns (s: State<D>)
    requires Keeps(a) && Keeps(b) && RunBatch(exec, d0, b) == Some(d) && RunBatch(exec, d, a) == Some(e)
    ensures var older, younger := FileName(ts, 1), FileName(ts, 0);
            && Sorted([older, younger]) == [younger, older]
            && Run(exec, Init(d0, {}), BackwardSteps(older, a, younger, b)) == Some(s)
            && FreshRun(exec, Init(d0, {}), BackwardSteps(older, a, younger, b))
            && Batches(s.log) == [a, b] && s.dir == map[] && s.db == e
  {
    var older, younger := FileName(ts, 1), FileName(ts, 0);
    SameMillisecond(ts);
    SortedPair(older, younger);
    s := BackwardRuns(exec, d0, older, a, younger, b, d, e);
  }

  lemma SortedPair(a: string, b: string)
    requires NameLess(b, a)
    ensures Sorted([a, b]) == [b, a]
  {
    NameLessAsymmetric(b, a);
    BeforeIsNameLess(a, b);
    assert Sorted([b]) == [b] by { assert [b][1..] == []; }
    assert [a, b][1..] == [b];
    assert Insert(a, [b]) == [b] + Insert(a, [b][1..]);
    assert Insert(a, []) == [a];
  }
}
