/** The store in its own form: the sink that applies one transaction, the
    durable-first envelope around it, and the replay at boot. Each method is
    tied to a run of the step system, so what is proved there holds here. */
module WalStore {
  import opened Common
  import opened Uuid
  import opened Codec
  import opened WalFile
  import opened Recovery
  import opened FileOrder
  import opened Replay

  /** What COMMIT comes back with: success, an error after the server did
      commit, or a rollback. */
  datatype Answer = Committed | Unclear | RolledBack

  datatype StoreError = NotPersisted | Rejected | BadLine(e: ParseError) | NotRemoved

  /** The state after one transaction for batch `i`. */
  function Transacted<D>(exec: Exec<D>, s: State<D>, i: nat, batch: Batch, answer: Answer): (t: State<D>) {
    match RunBatch(exec, s.db, batch)
    case Some(e) =>
      if answer.RolledBack? then s
      else s.(done := s.done + {i}, db := e, audit := s.audit + Ids(batch))
    case None => s
  }

  predicate Reported<D>(exec: Exec<D>, d: D, batch: Batch, answer: Answer) {
    answer.Committed? && RunBatch(exec, d, batch).Some?
  }

  /** The steps from a batch in hand to the end of its handling. */
  function HandleSteps<D>(exec: Exec<D>, d: D, batch: Batch, answer: Answer, unlinked: bool): (steps: seq<Step>) {
    if RunBatch(exec, d, batch).None? || answer.RolledBack? then [CommitFails]
    else if answer.Unclear? then [CommitUnclear]
    else if unlinked then [Commit, Unlink]
    else [Commit] + [UnlinkFails]
  }

  /** The state at the end of that handling. */
  function Handled<D>(exec: Exec<D>, s: State<D>, i: nat, batch: Batch, answer: Answer, unlinked: bool): (t: State<D>)
    requires i < |s.log|
  {
    var t := Transacted(exec, s, i, batch, answer);
    if Reported(exec, s.db, batch, answer) && unlinked then t.(dir := s.dir - {s.log[i].name}) else t
  }

  /** The transaction is committed, reported or not. */
  predicate Commits<D>(exec: Exec<D>, d: D, batch: Batch, answer: Answer) {
    RunBatch(exec, d, batch).Some? && !answer.RolledBack?
  }

  /** No older file is outstanding. */
  ghost predicate Oldest<D>(s: State<D>, i: nat)
    requires i < |s.log|
  {
    forall j :: 0 <= j < i ==> !Outstanding(s, j)
  }

  lemma HandleRuns<D>(exec: Exec<D>, s: State<D>, i: nat, batch: Batch, answer: Answer, unlinked: bool)
    requires s.worker.Idle? && i < |s.log|
    ensures var m := s.(worker := Holding(i, batch));
            var steps := HandleSteps(exec, s.db, batch, answer, unlinked);
            && Run(exec, m, steps) == Some(Handled(exec, s, i, batch, answer, unlinked))
            && FreshRun(exec, m, steps)
            && (OrderedRun(exec, m, steps) <==> (Commits(exec, s.db, batch, answer) ==> Oldest(s, i)))
  {
    var m := s.(worker := Holding(i, batch));
    var t := Handled(exec, s, i, batch, answer, unlinked);
    assert forall j :: 0 <= j < i ==> Outstanding(m, j) == Outstanding(s, j);
    if RunBatch(exec, s.db, batch).None? || answer.RolledBack? {
      OneStep(exec, m, CommitFails, s);
    } else if answer.Unclear? {
      OneStep(exec, m, CommitUnclear, t);
    } else if unlinked {
      CommitThenUnlink(exec, m, RunBatch(exec, s.db, batch).value);
    } else {
      var a := t.(worker := Applied(i));
      OneStep(exec, m, Commit, a);
      OneStep(exec, a, UnlinkFails, t);
      RunAppend(exec, m, [Commit], [UnlinkFails], a);
    }
  }

  /** One file of the replay: read back, then handled. */
  lemma FileRuns<D>(exec: Exec<D>, s: State<D>, i: nat, batch: Batch, answer: Answer, unlinked: bool)
    requires s.worker.Idle? && i < |s.log| && Outstanding(s, i)
    requires ReadBack(s.dir[s.log[i].name]) == Ok(batch)
    ensures var steps := [Load(i)] + HandleSteps(exec, s.db, batch, answer, unlinked);
            && Run(exec, s, steps) == Some(Handled(exec, s, i, batch, answer, unlinked))
            && FreshRun(exec, s, steps)
            && (OrderedRun(exec, s, steps) <==> (Commits(exec, s.db, batch, answer) ==> Oldest(s, i)))
  {
    LoadsBack(exec, s, i, batch);
    HandleRuns(exec, s, i, batch, answer, unlinked);
    RunAppend(exec, s, [Load(i)], HandleSteps(exec, s.db, batch, answer, unlinked), s.(worker := Holding(i, batch)));
  }

  /** A new batch: persisted, then handled. */
  lemma ApplyRuns<D>(exec: Exec<D>, s: State<D>, name: string, batch: Batch, answer: Answer, unlinked: bool)
    requires s.worker.Idle?
    ensures var p := s.(log := s.log + [Entry(name, batch)], dir := s.dir[name := FileText(batch)]);
            Run(exec, s, [Persist(name, batch)] + HandleSteps(exec, s.db, batch, answer, unlinked))
            == Some(Handled(exec, p, |s.log|, batch, answer, unlinked))
  {
    var p := s.(log := s.log + [Entry(name, batch)], dir := s.dir[name := FileText(batch)]);
    var m := p.(worker := Holding(|s.log|, batch));
    OneStep(exec, s, Persist(name, batch), m);
    HandleRuns(exec, p, |s.log|, batch, answer, unlinked);
    RunAppend(exec, s, [Persist(name, batch)], HandleSteps(exec, s.db, batch, answer, unlinked), m);
  }

  /** A run from `s` to `t` that persists nothing. */
  ghost predicate AnyReplay<D>(exec: Exec<D>, s: State<D>, steps: seq<Step>, t: State<D>) {
    && Run(exec, s, steps) == Some(t) && FreshRun(exec, s, steps)
    && forall k :: 0 <= k < |steps| ==> !steps[k].Persist?
  }

  /** Such a run that commits no batch past an outstanding older one. */
  ghost predicate ReplayRun<D>(exec: Exec<D>, s: State<D>, steps: seq<Step>, t: State<D>) {
    AnyReplay(exec, s, steps, t) && OrderedRun(exec, s, steps)
  }

  lemma ReplayAppend<D>(exec: Exec<D>, s: State<D>, a: seq<Step>, t: State<D>, b: seq<Step>, u: State<D>)
    requires AnyReplay(exec, s, a, t) && AnyReplay(exec, t, b, u)
    ensures AnyReplay(exec, s, a + b, u)
    ensures OrderedRun(exec, s, a + b) <==> OrderedRun(exec, s, a) && OrderedRun(exec, t, b)
  {
    RunAppend(exec, s, a, b, t);
  }

  lemma RunBatchStep<D>(exec: Exec<D>, d: D, batch: Batch, k: nat)
    requires k < |batch|
    ensures RunBatch(exec, d, batch[k..]) ==
            match exec(d, batch[k])
            case Some(e) => RunBatch(exec, e, batch[k + 1..])
            case None => None
  {
    assert batch[k..][0] == batch[k] && batch[k..][1..] == batch[k + 1..];
  }

  function Names(log: seq<Entry>): (ns: seq<string>)
    ensures |ns| == |log| && forall i :: 0 <= i < |log| ==> ns[i] == log[i].name
  {
    seq(|log|, i requires 0 <= i < |log| => log[i].name)
  }

  /** The files still there sort in the order in which they were persisted. */
  ghost predicate FilesInOrder<D>(s: State<D>) {
    forall j, i :: 0 <= j < i < |s.log| && Outstanding(s, j) && Outstanding(s, i) ==>
      NameLess(s.log[j].name, s.log[i].name)
  }

  /** Files named with rising timestamps are in order, whatever the random
      bits of the names are. */
  lemma TimestampsInOrder<D>(s: State<D>, stamps: seq<u64>, rands: seq<u64>)
    requires |stamps| == |rands| == |s.log|
    requires forall i :: 0 <= i < |s.log| ==> s.log[i].name == FileName(stamps[i], rands[i])
    requires forall i :: 0 <= i < |stamps| ==> stamps[i] < 0x1_0000_0000_0000
    requires forall j, i :: 0 <= j < i < |stamps| ==> stamps[j] < stamps[i]
    ensures FilesInOrder(s)
  {
    forall j, i | 0 <= j < i < |s.log|
      ensures NameLess(s.log[j].name, s.log[i].name)
    {
      ChronologicalOrder(stamps[j], rands[j], stamps[i], rands[i]);
    }
  }

  /** No two outstanding batches have the same file. */
  ghost predicate OwnFiles<D>(s: State<D>) {
    forall j, i :: 0 <= j < i < |s.log| && Outstanding(s, j) && Outstanding(s, i) ==> s.log[j].name != s.log[i].name
  }

  lemma InOrderOwn<D>(s: State<D>)
    requires FilesInOrder(s)
    ensures OwnFiles(s)
  {
    forall j, i | 0 <= j < i < |s.log| && Outstanding(s, j) && Outstanding(s, i)
      ensures s.log[j].name != s.log[i].name
    {
      NameLessAsymmetric(s.log[j].name, s.log[i].name);
    }
  }

  lemma BelowAll(files: seq<string>, name: string)
    requires Ascending(files) && files != [] && NameLess(name, files[0])
    ensures name !in Elements(files)
  {
    NameLessAsymmetric(name, files[0]);
    forall k | 0 <= k < |files|
      ensures files[k] != name
    {
      assert k > 0 ==> NameLess(files[0], files[k]);
    }
  }

  /** Files in order are replayed oldest first. */
  lemma OrderedIsOldest<D>(s: State<D>, files: seq<string>, i: nat)
    requires FilesInOrder(s) && Ascending(files) && files != [] && s.dir.Keys == Elements(files)
    requires i < |s.log| && s.log[i].name == files[0]
    ensures Oldest(s, i)
  {
    assert Outstanding(s, i);
    forall j | 0 <= j < i
      ensures !Outstanding(s, j)
    {
      if NameLess(s.log[j].name, s.log[i].name) {
        BelowAll(files, s.log[j].name);
      }
    }
  }

  lemma FewerInOrder<D>(s: State<D>, t: State<D>)
    requires t.log == s.log && t.dir.Keys <= s.dir.Keys
    ensures (FilesInOrder(s) ==> FilesInOrder(t)) && (OwnFiles(s) ==> OwnFiles(t))
  {
    forall j | 0 <= j < |s.log| && Outstanding(t, j)
      ensures Outstanding(s, j)
    {
    }
  }

  lemma AboveFirst(files: seq<string>, name: string)
    requires Ascending(files) && files != [] && name in Elements(files) && name != files[0]
    ensures NameLess(files[0], name)
  {
    var k :| 0 <= k < |files| && files[k] == name;
    assert k > 0;
  }

  /** The files are in order exactly when the one replayed first is the oldest
      and the others are in order. */
  lemma InOrderExact<D>(s: State<D>, files: seq<string>, i: nat, t: State<D>)
    requires OwnFiles(s) && Ascending(files) && files != [] && s.dir.Keys == Elements(files)
    requires i < |s.log| && s.log[i].name == files[0]
    requires t.log == s.log && t.dir.Keys == s.dir.Keys - {files[0]}
    ensures FilesInOrder(s) <==> Oldest(s, i) && FilesInOrder(t)
  {
    if FilesInOrder(s) {
      OrderedIsOldest(s, files, i);
      FewerInOrder(s, t);
    }
    if Oldest(s, i) && FilesInOrder(t) {
      forall j, k | 0 <= j < k < |s.log| && Outstanding(s, j) && Outstanding(s, k)
        ensures NameLess(s.log[j].name, s.log[k].name)
      {
        if j == i {
          AboveFirst(files, s.log[k].name);
        } else if k != i {
          assert Outstanding(t, j) && Outstanding(t, k);
        }
      }
    }
  }

  lemma DropSmallest(files: seq<string>)
    requires Ascending(files) && files != []
    ensures Elements(files[1..]) == Elements(files) - {files[0]} && Ascending(files[1..])
  {
    assert files == [files[0]] + files[1..];
    forall k | 0 < k < |files|
      ensures files[k] != files[0]
    {
      NameLessAsymmetric(files[0], files[k]);
    }
  }

  lemma LaterFiles(files: seq<string>, k: nat, j: nat)
    requires k <= j <= |files|
    ensures Elements(files[j..]) <= Elements(files[k..])
  {
    forall n | n in files[j..]
      ensures n in files[k..]
    {
      var i :| 0 <= i < |files[j..]| && files[j..][i] == n;
      assert files[k..][j + i - k] == n;
    }
  }

  ghost predicate ReadableTo(files: seq<string>, dir: map<string, string>, k: int) {
    k <= |files| && forall j :: 0 <= j < k ==> files[j] in dir && ReadBack(dir[files[j]]).Ok?
  }

  /** The files from the failing one on are left, those before it parsed. */
  ghost predicate StoppedAt(files: seq<string>, before: map<string, string>, after: map<string, string>, k: int) {
    0 <= k < |files| && after.Keys == Elements(files[k..]) && ReadableTo(files, before, k)
  }

  /** A file that does not parse ends every replay: the replay cannot succeed,
      and the file and all younger ones are left. */
  lemma UnreadableStops(files: seq<string>, before: map<string, string>, after: map<string, string>, j: nat)
    requires j < |files| && files[j] in before && ReadBack(before[files[j]]).Err?
    ensures !ReadableTo(files, before, |files|)
    ensures forall k :: StoppedAt(files, before, after, k) ==> k <= j && Elements(files[j..]) <= after.Keys
  {
    forall k | StoppedAt(files, before, after, k)
      ensures k <= j && Elements(files[j..]) <= after.Keys
    {
      LaterFiles(files, k, j);
    }
  }

  /** The replay has come past the first `k` files: they parsed and are gone,
      the others are as they were. */
  ghost predicate Past<D>(exec: Exec<D>, s0: State<D>, files: seq<string>, k: nat, steps: seq<Step>, s: State<D>) {
    && k <= |files| && s.log == s0.log && s.worker.Idle?
    && s.dir.Keys == Elements(files[k..])
    && (forall n :: n in s.dir ==> n in s0.dir && s.dir[n] == s0.dir[n])
    && ReadableTo(files, s0.dir, k)
    && AnyReplay(exec, s0, steps, s)
    && (OwnFiles(s0) ==> OwnFiles(s) && (FilesInOrder(s0) <==> OrderedRun(exec, s0, steps) && FilesInOrder(s)))
  }

  lemma TailAscends(files: seq<string>, k: nat)
    requires Ascending(files) && k < |files|
    ensures files[k..][0] == files[k] && Ascending(files[k..])
    ensures Elements(files[k + 1..]) == Elements(files[k..]) - {files[k]}
  {
    DropSmallest(files[k..]);
    assert files[k..][1..] == files[k + 1..];
  }

  lemma PastOne<D>(exec: Exec<D>, s0: State<D>, files: seq<string>, k: nat, steps: seq<Step>, s: State<D>,
                   more: seq<Step>, t: State<D>, i: nat)
    requires Past(exec, s0, files, k, steps, s) && k < |files| && Ascending(files)
    requires files[k] in s.dir && ReadBack(s.dir[files[k]]).Ok? && i < |s.log| && s.log[i].name == files[k]
    requires AnyReplay(exec, s, more, t) && t.log == s.log && t.worker.Idle? && t.dir == s.dir - {files[k]}
    requires OrderedRun(exec, s, more) <==> Oldest(s, i)
    ensures Past(exec, s0, files, k + 1, steps + more, t)
  {
    ReplayAppend(exec, s0, steps, s, more, t);
    TailAscends(files, k);
    if OwnFiles(s0) {
      InOrderExact(s, files[k..], i, t);
      FewerInOrder(s, t);
    }
  }

  /** The order in a turn, whether the file goes or not. */
  lemma TurnInOrder<D>(exec: Exec<D>, s0: State<D>, files: seq<string>, k: nat, steps: seq<Step>, s: State<D>,
                       more: seq<Step>, t: State<D>, i: nat)
    requires Past(exec, s0, files, k, steps, s) && k < |files| && Ascending(files)
    requires i < |s.log| && s.log[i].name == files[k] && AnyReplay(exec, s, more, t)
    requires Oldest(s, i) ==> OrderedRun(exec, s, more)
    ensures AnyReplay(exec, s0, steps + more, t)
    ensures FilesInOrder(s0) ==> OrderedRun(exec, s0, steps + more)
  {
    ReplayAppend(exec, s0, steps, s, more, t);
    TailAscends(files, k);
    if FilesInOrder(s0) {
      InOrderOwn(s0);
      OrderedIsOldest(s, files[k..], i);
    }
  }

  lemma PastAll<D>(exec: Exec<D>, s0: State<D>, files: seq<string>, steps: seq<Step>, s: State<D>)
    requires Past(exec, s0, files, |files|, steps, s)
    ensures s.dir == map[] && ReadableTo(files, s0.dir, |files|)
    ensures FilesInOrder(s0) ==> ReplayRun(exec, s0, steps, s)
    ensures OwnFiles(s0) ==> (OrderedRun(exec, s0, steps) <==> FilesInOrder(s0))
  {
    assert s.dir.Keys == {};
    if FilesInOrder(s0) {
      InOrderOwn(s0);
    }
  }

  class Store<D(!new)> {
    const exec: Exec<D>
    ghost var log: seq<Entry>
    ghost var done: set<nat>
    var dir: map<string, string>
    var db: D
    var audit: set<Bytes16>

    /** Between calls nothing is in memory: the worker of the step system is
        idle. */
    ghost function View(): (s: State<D>)
      reads this
    {
      State(log, done, dir, db, audit, Idle)
    }

    constructor (exec: Exec<D>, db: D, audit: set<Bytes16>)
      ensures this.exec == exec && View() == Init(db, audit)
    {
      this.exec := exec;
      this.db := db;
      this.audit := audit;
      log, done, dir := [], {}, map[];
    }

    /** `PgMutationSink::apply`: each statement and then its audit row, all in
        one transaction. The statements run first and the audit is never
        asked whether they already did. */
    method Transaction(batch: Batch, answer: Answer, ghost i: nat) returns (ok: bool)
      modifies this`db, this`audit, this`done
      ensures View() == Transacted(exec, old(View()), i, batch, answer)
      ensures ok <==> Reported(exec, old(db), batch, answer)
    {
      var d, rows := db, audit;
      assert batch[0..] == batch;
      for k := 0 to |batch|
        invariant View() == old(View())
        invariant RunBatch(exec, db, batch) == RunBatch(exec, d, batch[k..])
        invariant rows == audit + Ids(batch[..k])
      {
        RunBatchStep(exec, d, batch, k);
        var r := exec(d, batch[k]);
        if r.None? {
          return false;
        }
        d := r.value;
        rows := rows + {batch[k].id};
        IdsSnoc(batch, k);
      }
      assert batch[..|batch|] == batch;
      if answer.RolledBack? {
        return false;
      }
      db, audit, done := d, rows, done + {i};
      return answer.Committed?;
    }

    /** `WalSink::apply`: the file first, then the transaction, and the file
        goes only after a reported commit. */
    method Apply(name: string, batch: Batch, persisted: bool, answer: Answer, unlinked: bool)
      returns (r: Result<(), StoreError>)
      modifies this
      ensures !persisted ==> View() == old(View()) && r == Err(NotPersisted)
      ensures persisted ==>
                && Run(exec, old(View()), [Persist(name, batch)] + HandleSteps(exec, old(db), batch, answer, unlinked))
                   == Some(View())
                && r == (if Reported(exec, old(db), batch, answer) then Ok(()) else Err(Rejected))
      ensures persisted && r.Err? ==> name in dir && dir[name] == FileText(batch)
    {
      if !persisted {
        return Err(NotPersisted);
      }
      ghost var s := View();
      var text := WriteLines(batch);
      dir := dir[name := text];
      log := log + [Entry(name, batch)];
      ApplyRuns(exec, s, name, batch, answer, unlinked);
      var ok := Transaction(batch, answer, |s.log|);
      if !ok {
        return Err(Rejected);
      }
      if unlinked {
        dir := dir - {name};
      }
      return Ok(());
    }

    /** One turn of the loop of `replay_wal`: a file that parses is applied as
        one transaction and removed after the commit. */
    method ReplayFile(path: string, answer: Answer, unlinked: bool, ghost i: nat)
      returns (r: Result<(), StoreError>, ghost steps: seq<Step>)
      requires i < |log| && log[i].name == path && path in dir
      modifies this
      ensures log == old(log)
      ensures AnyReplay(exec, old(View()), steps, View())
      ensures Oldest(old(View()), i) ==> OrderedRun(exec, old(View()), steps)
      ensures r.Ok? && OrderedRun(exec, old(View()), steps) ==> Oldest(old(View()), i)
      ensures dir == if r.Ok? then old(dir) - {path} else old(dir)
      ensures r == match ReadBack(old(dir)[path])
                   case Err(e) => Err(BadLine(e))
                   case Ok(batch) =>
                     if !Reported(exec, old(db), batch, answer) then Err(Rejected)
                     else if !unlinked then Err(NotRemoved)
                     else Ok(())
    {
      ghost var s := View();
      var parsed := ReadLines(dir[path]);
      if parsed.Err? {
        return Err(BadLine(parsed.error)), [];
      }
      var batch := parsed.value;
      FileRuns(exec, s, i, batch, answer, unlinked);
      steps := [Load(i)] + HandleSteps(exec, db, batch, answer, unlinked);
      var ok := Transaction(batch, answer, i);
      if !ok {
        return Err(Rejected), steps;
      }
      if !unlinked {
        return Err(NotRemoved), steps;
      }
      dir := dir - {path};
      return Ok(()), steps;
    }

    /** The turn for file `k`, in terms of the replay since `s0`. */
    method ReplayNext(files: seq<string>, k: nat, answer: Answer, unlinked: bool,
                      ghost s0: State<D>, ghost steps: seq<Step>)
      returns (r: Result<(), StoreError>, ghost all: seq<Step>)
      requires Past(exec, s0, files, k, steps, View()) && k < |files| && Ascending(files)
      requires dir.Keys <= Elements(Names(log))
      modifies this
      ensures log == old(log) && dir.Keys <= old(dir.Keys)
      ensures AnyReplay(exec, s0, all, View()) && (FilesInOrder(s0) ==> OrderedRun(exec, s0, all))
      ensures r.Ok? ==> Past(exec, s0, files, k + 1, all, View())
      ensures r.Err? ==> StoppedAt(files, s0.dir, dir, k)
    {
      TailAscends(files, k);
      assert files[k] in Elements(files[k..]);
      ghost var i := IndexOf(files[k]);
      ghost var s := View();
      ghost var more;
      r, more := ReplayFile(files[k], answer, unlinked, i);
      TurnInOrder(exec, s0, files, k, steps, s, more, View(), i);
      if r.Ok? {
        PastOne(exec, s0, files, k, steps, s, more, View(), i);
      }
      all := steps + more;
    }

    /** `replay_wal`: the files in ascending order; the first failure of any
        kind stops the replay, and a file that does not parse is one. The
        listing of the directory may come in any order. No batch is committed
        past an older one if the names sort in the order of persisting, and of
        a replay that succeeds the converse holds. */
    method ReplayWal(listing: seq<string>, answers: nat -> (Answer, bool))
      returns (r: Result<nat, StoreError>, ghost steps: seq<Step>)
      requires forall i, j :: 0 <= i < j < |listing| ==> listing[i] != listing[j]
      requires Elements(listing) == dir.Keys && dir.Keys <= Elements(Names(log))
      modifies this
      ensures log == old(log)
      ensures AnyReplay(exec, old(View()), steps, View())
      ensures FilesInOrder(old(View())) ==> ReplayRun(exec, old(View()), steps, View())
      ensures r.Ok? && OwnFiles(old(View())) ==>
                (OrderedRun(exec, old(View()), steps) <==> FilesInOrder(old(View())))
      ensures r.Ok? ==> dir == map[] && r.value == |listing| && ReadableTo(Sorted(listing), old(dir), |listing|)
      ensures r.Err? ==> exists k :: StoppedAt(Sorted(listing), old(dir), dir, k)
    {
      var files := Sorted(listing);
      SortedIsAscending(listing);
      ghost var s0 := View();
      steps := [];
      var replayed := 0;
      assert files[0..] == files;
      while replayed < |files|
        invariant replayed <= |files| && Past(exec, s0, files, replayed, steps, View())
        invariant log == old(log) && dir.Keys <= Elements(Names(log))
      {
        var (answer, unlinked) := answers(replayed);
        var one;
        one, steps := ReplayNext(files, replayed, answer, unlinked, s0, steps);
        if one.Err? {
          return Err(one.error), steps;
        }
        replayed := replayed + 1;
      }
      PastAll(exec, s0, files, steps, View());
      return Ok(replayed), steps;
    }

    ghost function IndexOf(name: string): (i: nat)
      requires name in Elements(Names(log))
      reads this
      ensures i < |log| && log[i].name == name
    {
      var i :| 0 <= i < |log| && Names(log)[i] == name;
      i
    }
  }

  /** Boot after a crash: a replay that empties the directory leaves the
      database as every persisted batch gives it, each once, in order. */
  lemma BootRecovers<D(!new)>(exec: Exec<D>, d0: D, s: State<D>, steps: seq<Step>, t: State<D>)
    requires Consistent(exec, d0, s)
    requires ReplayRun(exec, s, steps, t)
    ensures Consistent(exec, d0, t)
    ensures t.dir == map[] ==> RunAll(exec, Some(d0), Batches(t.log)) == Some(t.db)
  {
    OrderedIsLegal(exec, s, steps);
    ConsistentRun(exec, d0, s, steps, t);
    if t.dir == map[] {
      EmptyDirectory(exec, d0, t);
    }
  }
}
