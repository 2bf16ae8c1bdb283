/** The durable pipeline as a step system: a batch is persisted to a file,
    applied in one transaction and unlinked; a crash may come between any two
    steps, also during replay. What a statement does to the database is a
    parameter, so the theorems here hold for every SQL. */
module Recovery {
  import opened Common
  import opened Uuid
  import opened Codec
  import opened RoundTrip
  import opened WalFile

  /** One statement: the new database, or a rejection by the server. */
  type Exec<!D> = (D, Mutation) -> Option<D>

  type Batch = seq<Mutation>

  /** The statements of one transaction; a rejection rolls all back. */
  function RunBatch<D>(exec: Exec<D>, d: D, batch: Batch): (r: Option<D>) {
    if batch == [] then Some(d)
    else match exec(d, batch[0])
         case Some(e) => RunBatch(exec, e, batch[1..])
         case None => None
  }

  function Then<D>(exec: Exec<D>, o: Option<D>, batch: Batch): (r: Option<D>) {
    match o
    case Some(d) => RunBatch(exec, d, batch)
    case None => None
  }

  /** All batches once, in order. */
  function RunAll<D>(exec: Exec<D>, o: Option<D>, batches: seq<Batch>): (r: Option<D>) {
    if batches == [] then o
    else Then(exec, RunAll(exec, o, batches[..|batches| - 1]), batches[|batches| - 1])
  }

  /** Applying the batch again changes nothing. */
  ghost predicate Stable<D(!new)>(exec: Exec<D>, batch: Batch) {
    forall d, e :: RunBatch(exec, d, batch) == Some(e) ==> RunBatch(exec, e, batch) == Some(e)
  }

  /** Applying `a` after the younger `b` does what the right order does. */
  ghost predicate LateOk<D(!new)>(exec: Exec<D>, a: Batch, b: Batch) {
    forall d: D, e ::
      Then(exec, RunBatch(exec, d, b), a) == Some(e) ==> Then(exec, RunBatch(exec, d, a), b) == Some(e)
  }

  /** The batch comes back from its file unchanged. */
  ghost predicate Keeps(batch: Batch) {
    forall i :: 0 <= i < |batch| ==>
      OnOneLine(batch[i]) && forall j :: 0 <= j < |batch[i].params| ==> Exact(batch[i].params[j])
  }

  lemma KeepsReadsBack(batch: Batch)
    requires Keeps(batch)
    ensures ReadBack(FileText(batch)) == Ok(batch)
  {
    FileRoundTrip(batch);
    forall i | 0 <= i < |batch|
      ensures NormalMutation(batch[i]) == batch[i]
    {
      ParseInvertsPrint(batch[i]);
      RoundTripExact(batch[i]);
    }
    assert NormalBatch(batch) == batch;
  }

  // ------------------------------------------------------------ the system

  datatype Entry = Entry(name: string, batch: Batch)

  /** The one batch in flight, by its index in the log. */
  datatype Worker = Idle | Holding(i: nat, batch: Batch) | Applied(i: nat)

  /** `log` (every batch ever persisted) and `done` (those committed at least
      once) are history; the rest is the directory, the database with its
      audit table, and the memory a crash loses. */
  datatype State<D> = State(
    log: seq<Entry>,
    done: set<nat>,
    dir: map<string, string>,
    db: D,
    audit: set<Bytes16>,
    worker: Worker)

  datatype Step =
    | Persist(name: string, batch: Batch)
    | Commit         // committed, and reported so
    | CommitUnclear  // committed, but reported as an error
    | CommitFails    // rolled back
    | Unlink
    | UnlinkFails
    | Crash
    | Load(i: nat)   // replay reads one file back

  function Init<D>(d: D, audit: set<Bytes16>): (s: State<D>) {
    State([], {}, map[], d, audit, Idle)
  }

  function Ids(batch: Batch): (ids: set<Bytes16>) {
    set i | 0 <= i < |batch| :: batch[i].id
  }

  lemma IdsSnoc(batch: Batch, k: nat)
    requires k < |batch|
    ensures Ids(batch[..k + 1]) == Ids(batch[..k]) + {batch[k].id}
  {
    forall x | x in Ids(batch[..k + 1])
      ensures x in Ids(batch[..k]) + {batch[k].id}
    {
      var i :| 0 <= i < k + 1 && batch[..k + 1][i].id == x;
      if i < k {
        assert batch[..k][i].id == x;
      }
    }
    forall x | x in Ids(batch[..k])
      ensures x in Ids(batch[..k + 1])
    {
      var i :| 0 <= i < k && batch[..k][i].id == x;
      assert batch[..k + 1][i].id == x;
    }
    assert batch[..k + 1][k].id == batch[k].id;
  }

  /** The transaction of `apply`: the statements, and an audit row for each
      identifier unless it is already there. */
  function Transact<D>(exec: Exec<D>, s: State<D>, worker: Worker): (r: Option<State<D>>) {
    if !s.worker.Holding? then None
    else match RunBatch(exec, s.db, s.worker.batch)
         case None => None
         case Some(e) =>
           Some(s.(db := e, audit := s.audit + Ids(s.worker.batch), done := s.done + {s.worker.i}, worker := worker))
  }

  /** The state after a step, if the step is possible. */
  function Next<D>(exec: Exec<D>, s: State<D>, step: Step): (r: Option<State<D>>) {
    match step
    case Persist(name, batch) =>
      if !s.worker.Idle? then None
      else Some(s.(log := s.log + [Entry(name, batch)], dir := s.dir[name := FileText(batch)],
                   worker := Holding(|s.log|, batch)))
    case Commit =>
      if !s.worker.Holding? then None else Transact(exec, s, Applied(s.worker.i))
    case CommitUnclear => Transact(exec, s, Idle)
    case CommitFails => if s.worker.Holding? then Some(s.(worker := Idle)) else None
    case Unlink =>
      if s.worker.Applied? && s.worker.i < |s.log|
      then Some(s.(dir := s.dir - {s.log[s.worker.i].name}, worker := Idle)) else None
    case UnlinkFails => if s.worker.Applied? then Some(s.(worker := Idle)) else None
    case Crash => Some(s.(worker := Idle))
    case Load(i) =>
      if !s.worker.Idle? || i >= |s.log| || s.log[i].name !in s.dir then None
      else match ReadBack(s.dir[s.log[i].name])
           case Ok(b) => Some(s.(worker := Holding(i, b)))
           case Err(_) => None
  }

  function Run<D>(exec: Exec<D>, s: State<D>, steps: seq<Step>): (r: Option<State<D>>)
    decreases |steps|
  {
    if steps == [] then Some(s)
    else match Next(exec, s, steps[0])
         case Some(t) => Run(exec, t, steps[1..])
         case None => None
  }

  /** A new file never reuses a name (`EqualIdentifiers` says when two
      generated names coincide). */
  ghost predicate FreshName<D>(s: State<D>, step: Step) {
    step.Persist? ==> forall i :: 0 <= i < |s.log| ==> s.log[i].name != step.name
  }

  ghost predicate FreshRun<D>(exec: Exec<D>, s: State<D>, steps: seq<Step>)
    decreases |steps|
  {
    steps == [] ||
    (FreshName(s, steps[0]) && match Next(exec, s, steps[0])
                               case Some(t) => FreshRun(exec, t, steps[1..])
                               case None => true)
  }

  // --------------------------------------------------------------- no loss

  ghost predicate OnDisk<D>(s: State<D>, i: nat)
    requires i < |s.log|
  {
    s.log[i].name in s.dir && s.dir[s.log[i].name] == FileText(s.log[i].batch)
  }

  /** Nothing persisted is ever out of reach. */
  ghost predicate Safe<D>(s: State<D>) {
    && (forall i, j :: 0 <= i < j < |s.log| ==> s.log[i].name != s.log[j].name)
    && (forall i :: 0 <= i < |s.log| ==>
         OnDisk(s, i) || (s.log[i].name !in s.dir && Ids(s.log[i].batch) <= s.audit && i in s.done))
    && (s.worker.Holding? ==>
         s.worker.i < |s.log| && OnDisk(s, s.worker.i) && Ids(s.worker.batch) == Ids(s.log[s.worker.i].batch))
    && (s.worker.Applied? ==>
         s.worker.i < |s.log| && OnDisk(s, s.worker.i) && Ids(s.log[s.worker.i].batch) <= s.audit
         && s.worker.i in s.done)
  }

  lemma NormalIds(batch: Batch)
    ensures Ids(NormalBatch(batch)) == Ids(batch)
  {
    forall i | 0 <= i < |batch|
      ensures NormalBatch(batch)[i].id == batch[i].id
    {
    }
  }

  lemma SafePersist<D>(exec: Exec<D>, s: State<D>, name: string, batch: Batch, t: State<D>)
    requires Safe(s) && FreshName(s, Persist(name, batch)) && Next(exec, s, Persist(name, batch)) == Some(t)
    ensures Safe(t)
  {
    forall i | 0 <= i < |s.log|
      ensures t.log[i] == s.log[i]
    {
    }
    assert OnDisk(t, |s.log|);
  }

  lemma SafeUnlink<D>(exec: Exec<D>, s: State<D>, t: State<D>)
    requires Safe(s) && Next(exec, s, Unlink) == Some(t)
    ensures Safe(t)
  {
    forall i | 0 <= i < |s.log|
      ensures OnDisk(t, i) || (s.log[i].name !in t.dir && Ids(s.log[i].batch) <= s.audit && i in s.done)
    {
      assert i != s.worker.i ==> s.log[i].name != s.log[s.worker.i].name;
    }
  }

  lemma SafeTransact<D>(exec: Exec<D>, s: State<D>, w: Worker, t: State<D>)
    requires Safe(s) && Transact(exec, s, w) == Some(t)
    requires w == Idle || w == Applied(s.worker.i)
    ensures Safe(t) && s.audit <= t.audit
  {
    assert t.audit == s.audit + Ids(s.log[s.worker.i].batch);
  }

  lemma SafeStep<D>(exec: Exec<D>, s: State<D>, step: Step, t: State<D>)
    requires Safe(s) && FreshName(s, step) && Next(exec, s, step) == Some(t)
    ensures Safe(t) && s.audit <= t.audit
  {
    match step
    case Load(i) =>
      FileRoundTrip(s.log[i].batch);
      NormalIds(s.log[i].batch);
    case Persist(name, batch) => SafePersist(exec, s, name, batch, t);
    case Commit => SafeTransact(exec, s, Applied(s.worker.i), t);
    case CommitUnclear => SafeTransact(exec, s, Idle, t);
    case Unlink => SafeUnlink(exec, s, t);
    case _ =>
  }

  lemma {:induction false} SafeRun<D>(exec: Exec<D>, s: State<D>, steps: seq<Step>, t: State<D>)
    requires Safe(s) && FreshRun(exec, s, steps) && Run(exec, s, steps) == Some(t)
    ensures Safe(t) && s.audit <= t.audit
    decreases |steps|
  {
    if steps != [] {
      var m := Next(exec, s, steps[0]).value;
      SafeStep(exec, s, steps[0], m);
      SafeRun(exec, m, steps[1..], t);
    }
  }

  /** No loss, for any SQL and any text, stable or not: after any run, with
      crashes and failures anywhere, a persisted identifier is in the audit
      table, or its file is still there with exactly the text that was
      written. A file is gone only when its batch was committed and all its
      identifiers are audited. */
  lemma NoLoss<D>(exec: Exec<D>, d: D, audit: set<Bytes16>, steps: seq<Step>, s: State<D>, i: nat, k: nat)
    requires FreshRun(exec, Init(d, audit), steps) && Run(exec, Init(d, audit), steps) == Some(s)
    requires i < |s.log| && k < |s.log[i].batch|
    ensures s.log[i].batch[k].id in s.audit || OnDisk(s, i)
    ensures s.log[i].name !in s.dir ==> i in s.done && Ids(s.log[i].batch) <= s.audit
  {
    SafeRun(exec, Init(d, audit), steps, s);
    assert s.log[i].batch[k].id in Ids(s.log[i].batch);
  }

  // ------------------------------------------------------- a file that sticks

  /** Batch `i` has a newline in a statement or text, is in its file, and the
      worker is not at it. */
  ghost predicate Stuck<D>(s: State<D>, i: nat) {
    && Safe(s) && i < |s.log| && OnDisk(s, i)
    && HasNewline(s.log[i].batch)
    && (s.worker.Holding? ==> s.worker.i != i)
    && (s.worker.Applied? ==> s.worker.i != i)
  }

  lemma StuckStep<D>(exec: Exec<D>, s: State<D>, step: Step, t: State<D>, i: nat)
    requires Stuck(s, i) && FreshName(s, step) && Next(exec, s, step) == Some(t)
    ensures Stuck(t, i) && (i in t.done ==> i in s.done)
  {
    SafeStep(exec, s, step, t);
    StuckFile(exec, s, step, t, i);
    NoLoad(exec, s, i);
  }

  lemma StuckFile<D>(exec: Exec<D>, s: State<D>, step: Step, t: State<D>, i: nat)
    requires Stuck(s, i) && FreshName(s, step) && Next(exec, s, step) == Some(t)
    ensures i < |t.log| && t.log[i] == s.log[i] && OnDisk(t, i)
  {
    if step.Unlink? {
      assert s.log[s.worker.i].name != s.log[i].name;
    }
  }

  lemma LoadFails<D>(exec: Exec<D>, s: State<D>, i: nat)
    requires i < |s.log| && s.log[i].name in s.dir && ReadBack(s.dir[s.log[i].name]).Err?
    ensures Next(exec, s, Load(i)) == None
  {
  }

  ghost predicate HasNewline(batch: Batch) {
    exists k :: 0 <= k < |batch| && !OnOneLine(batch[k])
  }

  lemma Unreadable(batch: Batch)
    requires HasNewline(batch)
    ensures ReadBack(FileText(batch)).Err?
  {
    FailsToReadBack(batch);
  }

  lemma NoLoad<D>(exec: Exec<D>, s: State<D>, i: nat)
    requires i < |s.log| && OnDisk(s, i) && HasNewline(s.log[i].batch)
    ensures Next(exec, s, Load(i)) == None
  {
    Unreadable(s.log[i].batch);
    LoadFails(exec, s, i);
  }

  /** Such a batch is out of reach for good: in every later run its file stays
      and the worker does not hold it again, so it is not committed if it was
      not before. The directory never becomes empty. */
  lemma {:induction false} StuckForever<D>(exec: Exec<D>, s: State<D>, steps: seq<Step>, t: State<D>, i: nat)
    requires Stuck(s, i) && FreshRun(exec, s, steps) && Run(exec, s, steps) == Some(t)
    ensures Stuck(t, i) && (i in t.done ==> i in s.done) && t.dir != map[]
    decreases |steps|
  {
    if steps != [] {
      var m := Next(exec, s, steps[0]).value;
      StuckStep(exec, s, steps[0], m, i);
      StuckForever(exec, m, steps[1..], t, i);
    }
  }

  // ---------------------------------------------------------- crash recovery

  /** The batches in `done` among the first `n`, in log order. */
  function RunDone<D>(exec: Exec<D>, o: Option<D>, log: seq<Entry>, done: set<nat>, n: nat): (r: Option<D>)
    requires n <= |log|
  {
    if n == 0 then o
    else
      var p := RunDone(exec, o, log, done, n - 1);
      if n - 1 in done then Then(exec, p, log[n - 1].batch) else p
  }

  ghost predicate Outstanding<D>(s: State<D>, j: nat)
    requires j < |s.log|
  {
    s.log[j].name in s.dir
  }

  /** What recovery asks of a step: fresh names, batches that are stable and
      come back from their file, and no commit that an older outstanding
      batch could later undo. */
  ghost predicate Legal<D(!new)>(exec: Exec<D>, s: State<D>, step: Step) {
    && FreshName(s, step)
    && (step.Persist? ==> Stable(exec, step.batch) && Keeps(step.batch))
    && ((step.Commit? || step.CommitUnclear?) && s.worker.Holding? && s.worker.i < |s.log| ==>
         forall j :: 0 <= j < s.worker.i && Outstanding(s, j) ==>
           LateOk(exec, s.log[j].batch, s.log[s.worker.i].batch))
  }

  ghost predicate LegalRun<D(!new)>(exec: Exec<D>, s: State<D>, steps: seq<Step>)
    decreases |steps|
  {
    steps == [] ||
    (Legal(exec, s, steps[0]) && match Next(exec, s, steps[0])
                                 case Some(t) => LegalRun(exec, t, steps[1..])
                                 case None => true)
  }

  /** Files hold what was persisted; what was never committed is still there. */
  ghost predicate FilesFine<D>(s: State<D>) {
    && (forall i, j :: 0 <= i < j < |s.log| ==> s.log[i].name != s.log[j].name)
    && (forall i :: 0 <= i < |s.log| && Outstanding(s, i) ==> OnDisk(s, i))
    && (forall i :: 0 <= i < |s.log| && i !in s.done ==> Outstanding(s, i))
    && (forall i :: i in s.done ==> i < |s.log|)
  }

  ghost predicate BatchesFine<D(!new)>(exec: Exec<D>, log: seq<Entry>) {
    forall i :: 0 <= i < |log| ==> Stable(exec, log[i].batch) && Keeps(log[i].batch)
  }

  ghost predicate WorkerFine<D>(s: State<D>) {
    && (s.worker.Holding? ==>
         s.worker.i < |s.log| && Outstanding(s, s.worker.i) && s.worker.batch == s.log[s.worker.i].batch)
    && (s.worker.Applied? ==> s.worker.i in s.done)
  }

  /** Whatever was committed past an outstanding batch lets it come late. */
  ghost predicate LateFine<D(!new)>(exec: Exec<D>, s: State<D>)
    requires FilesFine(s)
  {
    forall j, i :: 0 <= j < i && i in s.done && Outstanding(s, j) ==>
      LateOk(exec, s.log[j].batch, s.log[i].batch)
  }

  /** The database is what the committed batches give in log order. */
  ghost predicate Consistent<D(!new)>(exec: Exec<D>, d0: D, s: State<D>) {
    && FilesFine(s)
    && BatchesFine(exec, s.log)
    && WorkerFine(s)
    && LateFine(exec, s)
    && RunDone(exec, Some(d0), s.log, s.done, |s.log|) == Some(s.db)
  }

  lemma {:induction false} RunDoneFrame<D>(exec: Exec<D>, o: Option<D>, log: seq<Entry>, more: seq<Entry>,
                                           done: set<nat>, done': set<nat>, n: nat)
    requires n <= |log| && forall k :: 0 <= k < n ==> (k in done <==> k in done')
    ensures RunDone(exec, o, log, done, n) == RunDone(exec, o, log + more, done', n)
  {
    if n > 0 {
      RunDoneFrame(exec, o, log, more, done, done', n - 1);
    }
  }

  /** A batch applied last ends up where the log has it, if every committed
      younger batch lets it. */
  lemma {:induction false} Slide<D(!new)>(exec: Exec<D>, o: Option<D>, log: seq<Entry>, done: set<nat>,
                                          i: nat, n: nat, e: D)
    requires i < n <= |log| && i !in done
    requires forall k :: i < k < n && k in done ==> LateOk(exec, log[i].batch, log[k].batch)
    requires Then(exec, RunDone(exec, o, log, done, n), log[i].batch) == Some(e)
    ensures RunDone(exec, o, log, done + {i}, n) == Some(e)
  {
    var k := n - 1;
    RunDoneFrame(exec, o, log, [], done, done + {i}, i);
    assert log + [] == log;
    if k > i {
      var p := RunDone(exec, o, log, done, k);
      if k in done {
        assert LateOk(exec, log[i].batch, log[k].batch);
        assert Then(exec, RunBatch(exec, p.value, log[k].batch), log[i].batch) == Some(e);
        var m := RunBatch(exec, p.value, log[i].batch);
        assert Then(exec, m, log[k].batch) == Some(e);
        Slide(exec, o, log, done, i, k, m.value);
      } else {
        Slide(exec, o, log, done, i, k, e);
      }
    }
  }

  /** Committing a batch again changes nothing. */
  lemma {:induction false} SlideAgain<D(!new)>(exec: Exec<D>, o: Option<D>, log: seq<Entry>, done: set<nat>,
                                               i: nat, n: nat, e: D)
    requires i < n <= |log| && i in done && Stable(exec, log[i].batch)
    requires forall k :: i < k < n && k in done ==> LateOk(exec, log[i].batch, log[k].batch)
    requires Then(exec, RunDone(exec, o, log, done, n), log[i].batch) == Some(e)
    ensures RunDone(exec, o, log, done, n) == Some(e)
  {
    var k := n - 1;
    if k > i {
      var p := RunDone(exec, o, log, done, k);
      if k in done {
        assert LateOk(exec, log[i].batch, log[k].batch);
        assert Then(exec, RunBatch(exec, p.value, log[k].batch), log[i].batch) == Some(e);
        var m := RunBatch(exec, p.value, log[i].batch);
        assert Then(exec, m, log[k].batch) == Some(e);
        SlideAgain(exec, o, log, done, i, k, m.value);
      } else {
        SlideAgain(exec, o, log, done, i, k, e);
      }
    } else {
      var q := RunDone(exec, o, log, done, i);
      var m := RunBatch(exec, q.value, log[i].batch);
      assert Stable(exec, log[i].batch);
      assert RunBatch(exec, m.value, log[i].batch) == Some(e);
    }
  }

  lemma RunAfterCommit<D(!new)>(exec: Exec<D>, d0: D, s: State<D>, i: nat, e: D)
    requires i < |s.log| && Stable(exec, s.log[i].batch)
    requires RunDone(exec, Some(d0), s.log, s.done, |s.log|) == Some(s.db)
    requires RunBatch(exec, s.db, s.log[i].batch) == Some(e)
    requires forall k :: i < k < |s.log| && k in s.done ==> LateOk(exec, s.log[i].batch, s.log[k].batch)
    ensures RunDone(exec, Some(d0), s.log, s.done + {i}, |s.log|) == Some(e)
  {
    if i in s.done {
      SlideAgain(exec, Some(d0), s.log, s.done, i, |s.log|, e);
      assert s.done + {i} == s.done;
    } else {
      Slide(exec, Some(d0), s.log, s.done, i, |s.log|, e);
    }
  }

  lemma ConsistentCommit<D(!new)>(exec: Exec<D>, d0: D, s: State<D>, w: Worker, t: State<D>)
    requires Consistent(exec, d0, s) && Legal(exec, s, Commit)
    requires Transact(exec, s, w) == Some(t)
    requires w == Idle || w == Applied(s.worker.i)
    ensures Consistent(exec, d0, t)
  {
    var i := s.worker.i;
    assert Outstanding(s, i);
    RunAfterCommit(exec, d0, s, i, t.db);
    SameDirectory(s, t);
    LateCommit(exec, s, t);
  }

  lemma LateCommit<D(!new)>(exec: Exec<D>, s: State<D>, t: State<D>)
    requires FilesFine(s) && LateFine(exec, s) && Legal(exec, s, Commit)
    requires s.worker.Holding? && s.worker.i < |s.log|
    requires FilesFine(t) && t.log == s.log && t.done == s.done + {s.worker.i}
    requires forall i :: 0 <= i < |s.log| ==> (Outstanding(t, i) <==> Outstanding(s, i))
    ensures LateFine(exec, t)
  {
    forall j, k | 0 <= j < k && k in t.done && Outstanding(t, j)
      ensures LateOk(exec, t.log[j].batch, t.log[k].batch)
    {
      assert Outstanding(s, j);
    }
  }

  lemma SameDirectory<D>(s: State<D>, t: State<D>)
    requires FilesFine(s) && t.log == s.log && t.dir == s.dir
    requires s.done <= t.done && forall i :: i in t.done ==> i < |s.log|
    ensures FilesFine(t)
    ensures forall i :: 0 <= i < |s.log| ==> (Outstanding(t, i) <==> Outstanding(s, i))
  {
    forall i | 0 <= i < |s.log|
      ensures Outstanding(t, i) <==> Outstanding(s, i)
      ensures OnDisk(t, i) <==> OnDisk(s, i)
    {
    }
  }

  lemma FilesPersist<D>(s: State<D>, name: string, batch: Batch, t: State<D>)
    requires FilesFine(s) && FreshName(s, Persist(name, batch))
    requires t.log == s.log + [Entry(name, batch)] && t.dir == s.dir[name := FileText(batch)]
    requires t.done == s.done
    ensures FilesFine(t) && Outstanding(t, |s.log|)
    ensures forall i :: 0 <= i < |s.log| ==> t.log[i] == s.log[i] && (Outstanding(t, i) <==> Outstanding(s, i))
  {
    forall i | 0 <= i < |s.log|
      ensures t.log[i] == s.log[i] && (Outstanding(t, i) <==> Outstanding(s, i))
      ensures Outstanding(s, i) ==> OnDisk(t, i)
    {
      assert Outstanding(s, i) ==> OnDisk(s, i);
    }
    assert OnDisk(t, |s.log|);
  }

  lemma ConsistentPersist<D(!new)>(exec: Exec<D>, d0: D, s: State<D>, name: string, batch: Batch, t: State<D>)
    requires Consistent(exec, d0, s) && Legal(exec, s, Persist(name, batch))
    requires Next(exec, s, Persist(name, batch)) == Some(t)
    ensures Consistent(exec, d0, t)
  {
    var n := |s.log|;
    FilesPersist(s, name, batch, t);
    RunDoneFrame(exec, Some(d0), s.log, [Entry(name, batch)], s.done, s.done, n);
    assert n !in s.done;
    forall j, k | 0 <= j < k && k in t.done && Outstanding(t, j)
      ensures LateOk(exec, t.log[j].batch, t.log[k].batch)
    {
      assert Outstanding(s, j);
    }
  }

  lemma ConsistentUnlink<D(!new)>(exec: Exec<D>, d0: D, s: State<D>, t: State<D>)
    requires Consistent(exec, d0, s) && Next(exec, s, Unlink) == Some(t)
    ensures Consistent(exec, d0, t)
  {
    forall i | 0 <= i < |s.log| && i != s.worker.i
      ensures s.log[i].name != s.log[s.worker.i].name
    {
    }
    forall i | 0 <= i < |s.log| && Outstanding(t, i)
      ensures Outstanding(s, i) && OnDisk(t, i)
    {
      assert OnDisk(s, i);
    }
  }

  lemma ConsistentStep<D(!new)>(exec: Exec<D>, d0: D, s: State<D>, step: Step, t: State<D>)
    requires Consistent(exec, d0, s) && Legal(exec, s, step) && Next(exec, s, step) == Some(t)
    ensures Consistent(exec, d0, t)
  {
    match step
    case Persist(name, batch) => ConsistentPersist(exec, d0, s, name, batch, t);
    case Commit => ConsistentCommit(exec, d0, s, Applied(s.worker.i), t);
    case CommitUnclear => ConsistentCommit(exec, d0, s, Idle, t);
    case Unlink => ConsistentUnlink(exec, d0, s, t);
    case Load(i) =>
      assert OnDisk(s, i);
      KeepsReadsBack(s.log[i].batch);
      SameButWorker(exec, d0, s, t);
    case _ => SameButWorker(exec, d0, s, t);
  }

  lemma SameButWorker<D(!new)>(exec: Exec<D>, d0: D, s: State<D>, t: State<D>)
    requires Consistent(exec, d0, s) && t == s.(worker := t.worker)
    requires t.worker.Idle? ||
             (t.worker.Holding? && t.worker.i < |s.log| && Outstanding(s, t.worker.i)
              && t.worker.batch == s.log[t.worker.i].batch)
    ensures Consistent(exec, d0, t)
  {
    SameDirectory(s, t);
  }

  lemma {:induction false} ConsistentRun<D(!new)>(exec: Exec<D>, d0: D, s: State<D>, steps: seq<Step>, t: State<D>)
    requires Consistent(exec, d0, s) && LegalRun(exec, s, steps) && Run(exec, s, steps) == Some(t)
    ensures Consistent(exec, d0, t)
    decreases |steps|
  {
    if steps != [] {
      var m := Next(exec, s, steps[0]).value;
      ConsistentStep(exec, d0, s, steps[0], m);
      ConsistentRun(exec, d0, m, steps[1..], t);
    }
  }

  function Batches(log: seq<Entry>): (bs: seq<Batch>)
    ensures |bs| == |log| && forall i :: 0 <= i < |log| ==> bs[i] == log[i].batch
  {
    seq(|log|, i requires 0 <= i < |log| => log[i].batch)
  }

  lemma {:induction false} AllDone<D>(exec: Exec<D>, o: Option<D>, log: seq<Entry>, done: set<nat>, n: nat)
    requires n <= |log| && forall i :: 0 <= i < n ==> i in done
    ensures RunDone(exec, o, log, done, n) == RunAll(exec, o, Batches(log)[..n])
  {
    if n > 0 {
      AllDone(exec, o, log, done, n - 1);
      var bs := Batches(log)[..n];
      assert bs[..n - 1] == Batches(log)[..n - 1];
    }
  }

  lemma EmptyDirectory<D(!new)>(exec: Exec<D>, d0: D, s: State<D>)
    requires Consistent(exec, d0, s) && s.dir == map[]
    ensures RunAll(exec, Some(d0), Batches(s.log)) == Some(s.db)
  {
    AllDone(exec, Some(d0), s.log, s.done, |s.log|);
    assert Batches(s.log)[..|s.log|] == Batches(s.log);
  }

  /** Crash recovery: after any legal run that leaves the directory empty, the
      database is what every persisted batch gives, each applied once, in the
      order of persisting. */
  lemma CrashRecovery<D(!new)>(exec: Exec<D>, d0: D, audit: set<Bytes16>, steps: seq<Step>, s: State<D>)
    requires LegalRun(exec, Init(d0, audit), steps) && Run(exec, Init(d0, audit), steps) == Some(s)
    requires s.dir == map[]
    ensures RunAll(exec, Some(d0), Batches(s.log)) == Some(s.db)
  {
    ConsistentRun(exec, d0, Init(d0, audit), steps, s);
    EmptyDirectory(exec, d0, s);
  }
}
