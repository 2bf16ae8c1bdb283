/** From the queue to the tables: the batches the worker hands to the store,
    and what is in the database after a recovery, in terms of what was pushed. */
module PushOrder {
  import opened Common
  import opened Uuid
  import opened Codec
  import opened Recovery
  import B = Batcher

  /** The mutations among some messages. */
  function Pushed<T>(ms: seq<B.Msg<T>>): (p: seq<T>) {
    if ms == [] then [] else (if ms[0].M? then [ms[0].m] else []) + Pushed(ms[1..])
  }

  /** The batches among some events. */
  function Handed<T>(events: seq<B.Event<T>>): (bs: seq<seq<T>>) {
    if events == [] then [] else (if events[0].Handed? then [events[0].batch] else []) + Handed(events[1..])
  }

  lemma {:induction false} PushedAppend<T>(a: seq<B.Msg<T>>, b: seq<B.Msg<T>>)
    ensures Pushed(a + b) == Pushed(a) + Pushed(b)
  {
    if a == [] {
      assert a + b == b;
    } else {
      assert (a + b)[0] == a[0] && (a + b)[1..] == a[1..] + b;
      PushedAppend(a[1..], b);
      Associate(if a[0].M? then [a[0].m] else [], Pushed(a[1..]), Pushed(b));
    }
  }

  lemma {:induction false} PushedBatch<T>(batch: seq<T>)
    ensures Pushed(B.AsMessages(batch)) == batch
  {
    if batch != [] {
      PushedBatch(batch[1..]);
      assert B.AsMessages(batch)[1..] == B.AsMessages(batch[1..]);
      assert batch == [batch[0]] + batch[1..];
    }
  }

  lemma PushedFlush<T>(a: nat)
    ensures Pushed<T>([B.Flush(a)]) == []
  {
    var ms: seq<B.Msg<T>> := [B.Flush(a)];
    assert ms[1..] == [];
  }

  /** What was handed over is what was received, flushes left out. */
  lemma {:induction false} HandedArePushed<T>(events: seq<B.Event<T>>)
    ensures Flatten(Handed(events)) == Pushed(B.MeantAll(events))
  {
    if events != [] {
      HandedArePushed(events[1..]);
      PushedAppend(B.Meant(events[0]), B.MeantAll(events[1..]));
      match events[0]
      case Handed(batch, _, _, _) =>
        PushedBatch(batch);
        FlattenCons(batch, Handed(events[1..]));
      case Acked(a, _) =>
        PushedFlush<T>(a);
        assert [] + Handed(events[1..]) == Handed(events[1..]);
        assert [] + Pushed(B.MeantAll(events[1..])) == Pushed(B.MeantAll(events[1..]));
    }
  }

  /** All pushes of a schedule, in order. */
  function Pushes<T>(s: B.Schedule<T>): (p: seq<T>) {
    Pushed(B.Messages(s.arrivals))
  }

  /** The batches the worker hands over, in order. */
  function BatchesOf<T>(s: B.Schedule<T>): (bs: seq<seq<T>>) {
    Handed(B.Trace(s, 0, 0, 0))
  }

  /** Cut into batches or not, the pushes are the same. */
  lemma BatchesArePushes<T>(s: B.Schedule<T>)
    ensures Flatten(BatchesOf(s)) == Pushes(s)
  {
    B.FirstInFirstOut(s);
    HandedArePushed(B.Trace(s, 0, 0, 0));
  }

  lemma {:induction false} RunBatchAppend<D>(exec: Exec<D>, d: D, a: Batch, b: Batch)
    ensures RunBatch(exec, d, a + b) == Then(exec, RunBatch(exec, d, a), b)
    decreases |a|
  {
    if a == [] {
      assert a + b == b;
    } else {
      assert (a + b)[0] == a[0] && (a + b)[1..] == a[1..] + b;
      match exec(d, a[0])
      case Some(e) => RunBatchAppend(exec, e, a[1..], b);
      case None =>
    }
  }

  /** Batch by batch or all at once. */
  lemma {:induction false} RunAllFlat<D>(exec: Exec<D>, d: D, bs: seq<Batch>)
    ensures RunAll(exec, Some(d), bs) == RunBatch(exec, d, Flatten(bs))
  {
    if bs != [] {
      var init, last := bs[..|bs| - 1], bs[|bs| - 1];
      RunAllFlat(exec, d, init);
      assert bs == init + [last];
      FlattenSnoc(init, last);
      RunBatchAppend(exec, d, Flatten(init), last);
    }
  }

  /** The batches of one process after the other, each an initial part of those
      its schedule cuts: a crash loses what was not handed over yet. */
  ghost predicate InitialParts(parts: seq<seq<Batch>>, scheds: seq<B.Schedule<Mutation>>) {
    |parts| == |scheds| && forall p :: 0 <= p < |parts| ==> parts[p] <= BatchesOf(scheds[p])
  }

  ghost predicate Within(ns: seq<nat>, scheds: seq<B.Schedule<Mutation>>) {
    |ns| == |scheds| && forall p :: 0 <= p < |ns| ==> ns[p] <= |Pushes(scheds[p])|
  }

  /** The first `ns[p]` pushes of each process, one process after the other. */
  ghost function FirstPushes(ns: seq<nat>, scheds: seq<B.Schedule<Mutation>>): (batch: Batch)
    requires Within(ns, scheds)
    decreases |ns|
  {
    if ns == [] then [] else
      assert forall p :: 0 <= p < |ns[1..]| ==> ns[1..][p] == ns[p + 1] && scheds[1..][p] == scheds[p + 1];
      Pushes(scheds[0])[..ns[0]] + FirstPushes(ns[1..], scheds[1..])
  }

  /** An initial part of a process's batches holds an initial part of its
      pushes. */
  lemma PartIsPushes(part: seq<Batch>, sched: B.Schedule<Mutation>) returns (n: nat)
    requires part <= BatchesOf(sched)
    ensures n <= |Pushes(sched)| && Flatten(part) == Pushes(sched)[..n]
    ensures part == BatchesOf(sched) ==> n == |Pushes(sched)|
  {
    var all := BatchesOf(sched);
    var rest := all[|part|..];
    BatchesArePushes(sched);
    assert all == part + rest;
    FlattenAppend(part, rest);
    n := |Flatten(part)|;
    if part == all {
      assert rest == [];
    }
  }

  lemma {:induction false} PartsArePushes(parts: seq<seq<Batch>>, scheds: seq<B.Schedule<Mutation>>)
    returns (ns: seq<nat>)
    requires InitialParts(parts, scheds)
    ensures Within(ns, scheds) && Flatten(Flatten(parts)) == FirstPushes(ns, scheds)
    ensures forall p :: 0 <= p < |ns| && parts[p] == BatchesOf(scheds[p]) ==> ns[p] == |Pushes(scheds[p])|
    decreases |parts|
  {
    if parts == [] {
      ns := [];
    } else {
      var n := PartIsPushes(parts[0], scheds[0]);
      var more := PartsArePushes(parts[1..], scheds[1..]);
      ns := [n] + more;
      forall p | 0 < p < |ns|
        ensures ns[p] <= |Pushes(scheds[p])|
        ensures parts[p] == BatchesOf(scheds[p]) ==> ns[p] == |Pushes(scheds[p])|
      {
        assert ns[p] == more[p - 1] && scheds[p] == scheds[1..][p - 1] && parts[p] == parts[1..][p - 1];
      }
      assert ns[1..] == more;
      FlattenAppend(parts[0], Flatten(parts[1..]));
    }
  }

  /** The whole way. Each process's worker hands its batches to the store one
      after the other and none fails to be persisted; commits, unlinks and
      crashes go as they go, with replays between, and a restarted process has
      its own queue. Once a legal run has emptied the directory, the database is
      what the first so many pushes of each process make of the initial one: each
      applied once, in the order of pushing, none skipped. */
  lemma PushesInOrder<D(!new)>(scheds: seq<B.Schedule<Mutation>>, parts: seq<seq<Batch>>, exec: Exec<D>, d0: D,
                               audit: set<Bytes16>, steps: seq<Step>, s: State<D>)
    returns (ns: seq<nat>)
    requires LegalRun(exec, Init(d0, audit), steps) && Run(exec, Init(d0, audit), steps) == Some(s)
    requires InitialParts(parts, scheds) && Batches(s.log) == Flatten(parts)
    requires s.dir == map[]
    ensures Within(ns, scheds)
    ensures RunBatch(exec, d0, FirstPushes(ns, scheds)) == Some(s.db)
    ensures forall p :: 0 <= p < |ns| && parts[p] == BatchesOf(scheds[p]) ==> ns[p] == |Pushes(scheds[p])|
  {
    CrashRecovery(exec, d0, audit, steps, s);
    RunAllFlat(exec, d0, Batches(s.log));
    ns := PartsArePushes(parts, scheds);
  }
}
