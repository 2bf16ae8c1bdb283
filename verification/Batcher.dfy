/** The batching worker: what it hands to the sink and what it acknowledges,
    for every schedule of messages. Time is a number of clock ticks; the
    channel and the sink are given by when messages arrive, how long each
    apply takes and how it ends. */
module Batcher {
  import opened Common

  datatype Msg<T> = M(m: T) | Flush(ack: nat)

  datatype Arrival<T> = Arrival(at: nat, msg: Msg<T>)

  type Reply = Result<(), string>

  /** A schedule: the messages in channel order, when the last sender is
      dropped, the two settings of the batcher, and the sink's behaviour for
      its first, second, .. batch. */
  datatype Schedule<!T> = Schedule(
    arrivals: seq<Arrival<T>>,
    closeAt: nat,
    interval: nat,
    maxBatch: nat,
    reply: nat -> Reply,
    takes: nat -> nat)

  datatype Event<T> =
    | Handed(batch: seq<T>, since: nat, closed: nat, reply: Reply)
    | Acked(ack: nat, reply: Reply)

  function Max(a: nat, b: nat): (m: nat) {
    if a < b then b else a
  }

  function Limit(s: Schedule): (n: nat) {
    Max(1, s.maxBatch)
  }

  /** A closed batch: its mutations, the time, the next message and the flush
      that closed it. */
  datatype Gathered<T> = Gathered(batch: seq<T>, now: nat, next: nat, ack: Option<nat>)

  /** Filling the batch. The wait for each message starts anew when the one
      before it was received. */
  function Gather<T>(s: Schedule<T>, batch: seq<T>, now: nat, i: nat): (g: Gathered<T>)
    requires i <= |s.arrivals|
    ensures i <= g.next <= |s.arrivals|
    decreases |s.arrivals| - i
  {
    if |batch| >= s.maxBatch then Gathered(batch, now, i, None)
    else if i < |s.arrivals| && s.arrivals[i].at <= now + s.interval then
      var t := Max(now, s.arrivals[i].at);
      match s.arrivals[i].msg
      case M(m) => Gather(s, batch + [m], t, i + 1)
      case Flush(a) => Gathered(batch, t, i + 1, Some(a))
    else if i == |s.arrivals| && s.closeAt <= now + s.interval then Gathered(batch, Max(now, s.closeAt), i, None)
    else Gathered(batch, now + s.interval, i, None)
  }

  function AckOf<T>(ack: Option<nat>, reply: Reply): (e: seq<Event<T>>) {
    if ack.Some? then [Acked(ack.value, reply)] else []
  }

  /** A closed batch goes to the sink, then its flush is answered. */
  function Close<T>(g: Gathered<T>, since: nat, reply: Reply): (e: seq<Event<T>>)
    ensures e != [] && e[0] == Handed(g.batch, since, g.now, reply)
    ensures |e| == 1 || (|e| == 2 && e[1].Acked?)
  {
    [Handed(g.batch, since, g.now, reply)] + AckOf(g.ack, reply)
  }

  /** All that happens from message `i` and batch number `k` on. */
  function Trace<T>(s: Schedule<T>, now: nat, i: nat, k: nat): (events: seq<Event<T>>)
    requires i <= |s.arrivals|
    decreases |s.arrivals| - i
  {
    if i == |s.arrivals| then []
    else
      var t := Max(now, s.arrivals[i].at);
      match s.arrivals[i].msg
      case Flush(a) => [Acked(a, Ok(()))] + Trace(s, t, i + 1, k)
      case M(m) =>
        var g := Gather(s, [m], t, i + 1);
        Close(g, t, s.reply(k)) + Trace(s, g.now + s.takes(k), g.next, k + 1)
  }

  // ------------------------------------------------------------- the worker

  /** The inner loop of the worker. */
  method Fill<T>(s: Schedule<T>, first: T, since: nat, start: nat)
    returns (batch: seq<T>, now: nat, i: nat, ack: Option<nat>)
    requires start <= |s.arrivals|
    ensures Gathered(batch, now, i, ack) == Gather(s, [first], since, start)
  {
    batch, now, i, ack := [first], since, start, None;
    while |batch| < s.maxBatch
      invariant start <= i <= |s.arrivals| && ack == None
      invariant Gather(s, batch, now, i) == Gather(s, [first], since, start)
      decreases |s.arrivals| - i
    {
      if i < |s.arrivals| && s.arrivals[i].at <= now + s.interval {
        now := Max(now, s.arrivals[i].at);
        i := i + 1;
        match s.arrivals[i - 1].msg
        case M(m) =>
          batch := batch + [m];
        case Flush(a) =>
          ack := Some(a);
          return;
      } else if i == |s.arrivals| && s.closeAt <= now + s.interval {
        now := Max(now, s.closeAt);
        return;
      } else {
        now := now + s.interval;
        return;
      }
    }
  }

  /** One turn of the worker's loop. */
  method Turn<T>(s: Schedule<T>, now: nat, i: nat, k: nat)
    returns (more: seq<Event<T>>, now': nat, i': nat, k': nat)
    requires i < |s.arrivals|
    ensures i < i' <= |s.arrivals| && Trace(s, now, i, k) == more + Trace(s, now', i', k')
  {
    var t := Max(now, s.arrivals[i].at);
    match s.arrivals[i].msg
    case Flush(a) =>
      more, now', i', k' := [Acked(a, Ok(()))], t, i + 1, k;
    case M(m) =>
      var batch, closed, next, ack := Fill(s, m, t, i + 1);
      more := Close(Gathered(batch, closed, next, ack), t, s.reply(k));
      now', i', k' := closed + s.takes(k), next, k + 1;
  }

  /** The worker task: the first message of a batch is awaited without limit,
      a flush with nothing pending is acknowledged at once, every batch goes
      to the sink in one piece. */
  method Work<T>(s: Schedule<T>) returns (events: seq<Event<T>>)
    ensures events == Trace(s, 0, 0, 0)
  {
    events := [];
    var now: nat, i: nat, k: nat := 0, 0, 0;
    ghost var all := Trace(s, 0, 0, 0);
    assert [] + all == all;
    while i < |s.arrivals|
      invariant i <= |s.arrivals|
      invariant all == events + Trace(s, now, i, k)
      decreases |s.arrivals| - i
    {
      var more;
      more, now, i, k := Turn(s, now, i, k);
      Associate(events, more, Trace(s, now, i, k));
      events := events + more;
    }
    assert events + [] == events;
  }

  // ------------------------------------------------------------------- order

  function Messages<T>(arrivals: seq<Arrival<T>>): (ms: seq<Msg<T>>)
    ensures |ms| == |arrivals| && forall i :: 0 <= i < |arrivals| ==> ms[i] == arrivals[i].msg
  {
    seq(|arrivals|, i requires 0 <= i < |arrivals| => arrivals[i].msg)
  }

  function AsMessages<T>(batch: seq<T>): (ms: seq<Msg<T>>)
    ensures |ms| == |batch| && forall i :: 0 <= i < |batch| ==> ms[i] == M(batch[i])
  {
    seq(|batch|, i requires 0 <= i < |batch| => M(batch[i]))
  }

  /** The messages an event accounts for. */
  function Meant<T>(e: Event<T>): (ms: seq<Msg<T>>) {
    match e
    case Handed(batch, _, _, _) => AsMessages(batch)
    case Acked(a, _) => [Flush(a)]
  }

  function MeantAll<T>(events: seq<Event<T>>): (ms: seq<Msg<T>>) {
    if events == [] then [] else Meant(events[0]) + MeantAll(events[1..])
  }

  lemma {:induction false} MeantAppend<T>(a: seq<Event<T>>, b: seq<Event<T>>)
    ensures MeantAll(a + b) == MeantAll(a) + MeantAll(b)
  {
    if a == [] {
      assert a + b == b;
    } else {
      assert (a + b)[0] == a[0] && (a + b)[1..] == a[1..] + b;
      MeantAppend(a[1..], b);
      Associate(Meant(a[0]), MeantAll(a[1..]), MeantAll(b));
    }
  }

  function FlushOf<T>(ack: Option<nat>): (ms: seq<Msg<T>>) {
    if ack.Some? then [Flush(ack.value)] else []
  }

  /** A batch holds exactly the messages received while it was open. */
  lemma {:induction false} GatherTakes<T>(s: Schedule<T>, batch: seq<T>, now: nat, i: nat)
    requires i <= |s.arrivals|
    ensures var g := Gather(s, batch, now, i);
            AsMessages(batch) + Messages(s.arrivals)[i..g.next] == AsMessages(g.batch) + FlushOf(g.ack)
    decreases |s.arrivals| - i
  {
    var g := Gather(s, batch, now, i);
    var ms := Messages(s.arrivals);
    if |batch| >= s.maxBatch || i == |s.arrivals| || s.arrivals[i].at > now + s.interval {
      assert ms[i..i] == [];
    } else {
      match s.arrivals[i].msg
      case M(m) =>
        GatherTakes(s, batch + [m], Max(now, s.arrivals[i].at), i + 1);
        assert AsMessages(batch + [m]) == AsMessages(batch) + [ms[i]];
        assert ms[i..g.next] == [ms[i]] + ms[i + 1..g.next];
        Associate(AsMessages(batch), [ms[i]], ms[i + 1..g.next]);
      case Flush(a) =>
        assert ms[i..i + 1] == [ms[i]];
    }
  }

  lemma MeantClose<T>(g: Gathered<T>, since: nat, reply: Reply)
    ensures MeantAll(Close(g, since, reply)) == AsMessages(g.batch) + FlushOf(g.ack)
  {
    var h := Handed(g.batch, since, g.now, reply);
    MeantAppend([h], AckOf(g.ack, reply));
    assert [h][1..] == [];
    assert MeantAll([h]) == AsMessages(g.batch) + [];
    if g.ack.Some? {
      var a: Event<T> := Acked(g.ack.value, reply);
      assert [a][1..] == [];
      assert MeantAll([a]) == [Flush(g.ack.value)] + [];
    }
  }

  lemma SliceJoin<T>(ms: seq<T>, i: nat, j: nat)
    requires i < j <= |ms|
    ensures [ms[i]] + ms[i + 1..j] + ms[j..] == ms[i..]
  {
  }

  lemma HeadTail<T>(ms: seq<T>, i: nat)
    requires i < |ms|
    ensures [ms[i]] + ms[i + 1..] == ms[i..]
  {
  }

  lemma MeantFlush<T>(a: nat, rest: seq<Event<T>>)
    ensures MeantAll([Acked(a, Ok(()))] + rest) == [Flush(a)] + MeantAll(rest)
  {
    var e: Event<T> := Acked(a, Ok(()));
    assert ([e] + rest)[1..] == rest;
  }

  lemma MeantBatch<T>(s: Schedule<T>, m: T, t: nat, i: nat, reply: Reply, rest: seq<Event<T>>)
    requires i < |s.arrivals| && s.arrivals[i].msg == M(m)
    requires MeantAll(rest) == Messages(s.arrivals)[Gather(s, [m], t, i + 1).next..]
    ensures MeantAll(Close(Gather(s, [m], t, i + 1), t, reply) + rest) == Messages(s.arrivals)[i..]
  {
    var g := Gather(s, [m], t, i + 1);
    MeantAppend(Close(g, t, reply), rest);
    MeantClose(g, t, reply);
    BatchTakes(s, m, t, i);
    SliceJoin(Messages(s.arrivals), i, g.next);
  }

  lemma TraceMeansFlush<T>(s: Schedule<T>, now: nat, i: nat, k: nat, a: nat, rest: seq<Event<T>>)
    requires i < |s.arrivals| && s.arrivals[i].msg == Flush(a)
    requires rest == Trace(s, Max(now, s.arrivals[i].at), i + 1, k)
    requires MeantAll(rest) == Messages(s.arrivals)[i + 1..]
    ensures MeantAll(Trace(s, now, i, k)) == Messages(s.arrivals)[i..]
  {
    assert Trace(s, now, i, k) == [Acked(a, Ok(()))] + rest;
    MeantFlush(a, rest);
    HeadTail(Messages(s.arrivals), i);
  }

  lemma TraceMeansBatch<T>(s: Schedule<T>, now: nat, i: nat, k: nat, m: T, g: Gathered<T>, rest: seq<Event<T>>)
    requires i < |s.arrivals| && s.arrivals[i].msg == M(m)
    requires g == Gather(s, [m], Max(now, s.arrivals[i].at), i + 1)
    requires rest == Trace(s, g.now + s.takes(k), g.next, k + 1)
    requires MeantAll(rest) == Messages(s.arrivals)[g.next..]
    ensures MeantAll(Trace(s, now, i, k)) == Messages(s.arrivals)[i..]
  {
    var t := Max(now, s.arrivals[i].at);
    assert Trace(s, now, i, k) == Close(g, t, s.reply(k)) + rest;
    MeantBatch(s, m, t, i, s.reply(k), rest);
  }

  lemma {:induction false} TraceMeans<T>(s: Schedule<T>, now: nat, i: nat, k: nat)
    requires i <= |s.arrivals|
    ensures MeantAll(Trace(s, now, i, k)) == Messages(s.arrivals)[i..]
    decreases |s.arrivals| - i
  {
    if i < |s.arrivals| {
      var t := Max(now, s.arrivals[i].at);
      match s.arrivals[i].msg
      case Flush(a) =>
        TraceMeans(s, t, i + 1, k);
        TraceMeansFlush(s, now, i, k, a, Trace(s, t, i + 1, k));
      case M(m) =>
        var g := Gather(s, [m], t, i + 1);
        TraceMeans(s, g.now + s.takes(k), g.next, k + 1);
        TraceMeansBatch(s, now, i, k, m, g, Trace(s, g.now + s.takes(k), g.next, k + 1));
    }
  }

  lemma BatchTakes<T>(s: Schedule<T>, m: T, t: nat, i: nat)
    requires i < |s.arrivals| && s.arrivals[i].msg == M(m)
    ensures var g := Gather(s, [m], t, i + 1);
            AsMessages(g.batch) + FlushOf(g.ack) == [Messages(s.arrivals)[i]] + Messages(s.arrivals)[i + 1..g.next]
  {
    GatherTakes(s, [m], t, i + 1);
    assert AsMessages([m]) == [Messages(s.arrivals)[i]];
  }

  /** First in, first out, with the flushes in their places: reading the
      worker's events in order gives back the channel, message by message.
      Nothing is lost, doubled or reordered; every flush is acknowledged
      once, after all that was sent before it was handed to the sink and
      before anything sent later is. */
  lemma FirstInFirstOut<T>(s: Schedule<T>)
    ensures MeantAll(Trace(s, 0, 0, 0)) == Messages(s.arrivals)
  {
    TraceMeans(s, 0, 0, 0);
    assert Messages(s.arrivals)[0..] == Messages(s.arrivals);
  }

  /** At any moment of the run, what was handed over and acknowledged is an
      initial part of what was sent. */
  lemma AnyMoment<T>(s: Schedule<T>, n: nat)
    requires n <= |Trace(s, 0, 0, 0)|
    ensures MeantAll(Trace(s, 0, 0, 0)[..n]) <= Messages(s.arrivals)
  {
    var events := Trace(s, 0, 0, 0);
    FirstInFirstOut(s);
    assert events[..n] + events[n..] == events;
    MeantAppend(events[..n], events[n..]);
  }

  lemma {:induction false} GatherSize<T>(s: Schedule<T>, batch: seq<T>, now: nat, i: nat)
    requires i <= |s.arrivals|
    ensures |batch| <= |Gather(s, batch, now, i).batch| <= Max(|batch|, s.maxBatch)
    decreases |s.arrivals| - i
  {
    if |batch| < s.maxBatch && i < |s.arrivals| && s.arrivals[i].at <= now + s.interval && s.arrivals[i].msg.M? {
      GatherSize(s, batch + [s.arrivals[i].msg.m], Max(now, s.arrivals[i].at), i + 1);
    }
  }

  /** Batches are never empty and never over the limit; a limit of 0 acts as
      a limit of 1. */
  lemma {:induction false} BatchSizes<T>(s: Schedule<T>, now: nat, i: nat, k: nat, j: nat)
    requires i <= |s.arrivals| && j < |Trace(s, now, i, k)| && Trace(s, now, i, k)[j].Handed?
    ensures 1 <= |Trace(s, now, i, k)[j].batch| <= Limit(s)
    decreases |s.arrivals| - i
  {
    var t := Max(now, s.arrivals[i].at);
    match s.arrivals[i].msg
    case Flush(a) => BatchSizes(s, t, i + 1, k, j - 1);
    case M(m) =>
      var g := Gather(s, [m], t, i + 1);
      var head := Close(g, t, s.reply(k));
      GatherSize(s, [m], t, i + 1);
      if j >= |head| {
        BatchSizes(s, g.now + s.takes(k), g.next, k + 1, j - |head|);
      }
  }

  // -------------------------------------------------------------------- time

  lemma {:induction false} GatherTime<T>(s: Schedule<T>, batch: seq<T>, now: nat, i: nat)
    requires i <= |s.arrivals| && |batch| <= Limit(s)
    ensures var g := Gather(s, batch, now, i); now <= g.now <= now + (Limit(s) - |batch|) * s.interval
    decreases |s.arrivals| - i
  {
    var room := Limit(s) - |batch|;
    if |batch| < s.maxBatch {
      assert room * s.interval == (room - 1) * s.interval + s.interval;
      if i < |s.arrivals| && s.arrivals[i].at <= now + s.interval && s.arrivals[i].msg.M? {
        GatherTime(s, batch + [s.arrivals[i].msg.m], Max(now, s.arrivals[i].at), i + 1);
      } else {
        NotNegative(room - 1, s.interval);
      }
    } else {
      NotNegative(room, s.interval);
    }
  }

  lemma NotNegative(a: nat, b: nat)
    ensures a * b >= 0
  {
  }

  /** The time when a worker that is free at `now` has received the `n` messages
      from message `i` on. */
  function After<T>(s: Schedule<T>, now: nat, i: nat, n: nat): (t: nat)
    requires i + n <= |s.arrivals|
    decreases n
  {
    if n == 0 then now else After(s, Max(now, s.arrivals[i].at), i + 1, n - 1)
  }

  /** It is the latest of their arrivals and `now`. */
  lemma {:induction false} AfterIsLatest<T>(s: Schedule<T>, now: nat, i: nat, n: nat)
    requires i + n <= |s.arrivals|
    ensures now <= After(s, now, i, n) && forall j :: i <= j < i + n ==> s.arrivals[j].at <= After(s, now, i, n)
    ensures After(s, now, i, n) == now || exists j :: i <= j < i + n && s.arrivals[j].at == After(s, now, i, n)
    decreases n
  {
    if n > 0 {
      AfterIsLatest(s, Max(now, s.arrivals[i].at), i + 1, n - 1);
    }
  }

  /** What closes a batch that has received `n` mutations, and when: the last of
      them if it is full; a flush that follows within the interval, when it
      comes; the end of the channel within the interval; and else the end of
      the interval after the last mutation, with nothing received in between. */
  ghost predicate ClosedAt<T>(s: Schedule<T>, now: nat, i: nat, n: nat, g: Gathered<T>)
    requires i + n <= |s.arrivals|
  {
    var last := After(s, now, i, n);
    if |g.batch| >= s.maxBatch then
      g.now == last && g.next == i + n && g.ack == None
    else if i + n < |s.arrivals| && s.arrivals[i + n].at <= last + s.interval then
      && g.ack.Some? && s.arrivals[i + n].msg == Flush(g.ack.value)
      && g.now == Max(last, s.arrivals[i + n].at) && g.next == i + n + 1
    else if i + n == |s.arrivals| && s.closeAt <= last + s.interval then
      g.now == Max(last, s.closeAt) && g.next == i + n && g.ack == None
    else
      g.now == last + s.interval && g.next == i + n && g.ack == None
  }

  lemma {:induction false} ClosingExact<T>(s: Schedule<T>, batch: seq<T>, now: nat, i: nat)
    requires i <= |s.arrivals|
    ensures var g := Gather(s, batch, now, i);
            && |batch| <= |g.batch| && i + (|g.batch| - |batch|) <= |s.arrivals|
            && ClosedAt(s, now, i, |g.batch| - |batch|, g)
    decreases |s.arrivals| - i
  {
    if |batch| < s.maxBatch && i < |s.arrivals| && s.arrivals[i].at <= now + s.interval && s.arrivals[i].msg.M? {
      ClosingExact(s, batch + [s.arrivals[i].msg.m], Max(now, s.arrivals[i].at), i + 1);
    }
  }

  lemma {:induction false} NotBefore<T>(s: Schedule<T>, now: nat, i: nat, k: nat, j: nat)
    requires i <= |s.arrivals| && j < |Trace(s, now, i, k)| && Trace(s, now, i, k)[j].Handed?
    ensures Trace(s, now, i, k)[j].since >= now
    decreases |s.arrivals| - i
  {
    var t := Max(now, s.arrivals[i].at);
    match s.arrivals[i].msg
    case Flush(a) => NotBefore(s, t, i + 1, k, j - 1);
    case M(m) =>
      var g := Gather(s, [m], t, i + 1);
      FirstGatherTime(s, m, t, i + 1);
      var head := Close(g, t, s.reply(k));
      if j >= |head| {
        NotBefore(s, g.now + s.takes(k), g.next, k + 1, j - |head|);
      }
  }

  /** The worker's time from a mutation it meets idle: the batch is open from
      when that mutation is there and the worker free, it is handed over when it
      closes, and no other is opened before the sink is done with it. */
  lemma SinkAwaited<T>(s: Schedule<T>, now: nat, i: nat, k: nat)
    requires i < |s.arrivals| && s.arrivals[i].msg.M?
    ensures var t := Max(now, s.arrivals[i].at);
            var g := Gather(s, [s.arrivals[i].msg.m], t, i + 1);
            var events := Trace(s, now, i, k);
            && |events| >= 1 && events[0] == Handed(g.batch, t, g.now, s.reply(k))
            && forall j :: 1 <= j < |events| && events[j].Handed? ==> events[j].since >= g.now + s.takes(k)
  {
    var t := Max(now, s.arrivals[i].at);
    var g := Gather(s, [s.arrivals[i].msg.m], t, i + 1);
    var head, rest := Close(g, t, s.reply(k)), Trace(s, g.now + s.takes(k), g.next, k + 1);
    var events := Trace(s, now, i, k);
    forall j | 1 <= j < |events| && events[j].Handed?
      ensures events[j].since >= g.now + s.takes(k)
    {
      assert events == head + rest;
      assert j >= |head|;
      NotBefore(s, g.now + s.takes(k), g.next, k + 1, j - |head|);
    }
  }

  function OpenLimit(s: Schedule): (t: nat) {
    (Limit(s) - 1) * s.interval
  }

  lemma FirstGatherTime<T>(s: Schedule<T>, m: T, now: nat, i: nat)
    requires i <= |s.arrivals|
    ensures now <= Gather(s, [m], now, i).now <= now + OpenLimit(s)
  {
    GatherTime(s, [m], now, i);
  }

  /** From its first mutation to its close a batch is open for at most the
      interval times one less than the limit. */
  lemma {:induction false} OpenTime<T>(s: Schedule<T>, now: nat, i: nat, k: nat, j: nat)
    requires i <= |s.arrivals| && j < |Trace(s, now, i, k)| && Trace(s, now, i, k)[j].Handed?
    ensures var e := Trace(s, now, i, k)[j]; e.since <= e.closed <= e.since + OpenLimit(s)
    decreases |s.arrivals| - i
  {
    var t := Max(now, s.arrivals[i].at);
    match s.arrivals[i].msg
    case Flush(a) => OpenTime(s, t, i + 1, k, j - 1);
    case M(m) =>
      var g := Gather(s, [m], t, i + 1);
      FirstGatherTime(s, m, t, i + 1);
      var head := Close(g, t, s.reply(k));
      if j >= |head| {
        OpenTime(s, g.now + s.takes(k), g.next, k + 1, j - |head|);
      }
  }

  /** One mutation at each multiple of the interval. */
  function Steady<T>(m: T, interval: nat, maxBatch: nat): (s: Schedule<T>) {
    Schedule(seq(Max(1, maxBatch), i requires 0 <= i => Arrival(i * interval, M(m))),
             Max(1, maxBatch) * interval, interval, maxBatch, _ => Ok(()), _ => 0)
  }

  lemma Multiples(n: nat, interval: nat)
    requires n >= 1
    ensures n * interval == (n - 1) * interval + interval
    ensures 0 <= (n - 1) * interval <= n * interval
  {
    NotNegative(n - 1, interval);
  }

  lemma {:induction false} SteadyGather<T>(m: T, interval: nat, maxBatch: nat, batch: seq<T>, now: nat)
    requires 1 <= |batch| <= Max(1, maxBatch) && now == (|batch| - 1) * interval
    ensures Gather(Steady(m, interval, maxBatch), batch, now, |batch|).now == (Max(1, maxBatch) - 1) * interval
    decreases Max(1, maxBatch) - |batch|
  {
    var s := Steady(m, interval, maxBatch);
    var n := |batch|;
    Multiples(n, interval);
    if n < s.maxBatch {
      var next: nat := n * interval;
      assert s.arrivals[n] == Arrival(next, M(m));
      SteadyGather(m, interval, maxBatch, batch + [m], next);
    }
  }

  /** The bound is reached: mutations that keep arriving just in time hold the
      batch open until it is full. */
  lemma OpenTimeReached<T>(m: T, interval: nat, maxBatch: nat)
    ensures var events := Trace(Steady(m, interval, maxBatch), 0, 0, 0);
            && events != [] && events[0].Handed?
            && events[0].since == 0 && events[0].closed == (Max(1, maxBatch) - 1) * interval
  {
    var s := Steady(m, interval, maxBatch);
    assert s.arrivals[0] == Arrival(0 * interval, M(m));
    SteadyGather(m, interval, maxBatch, [m], 0);
  }

  ghost predicate ClosesWithin<T(!new)>(interval: nat, maxBatch: nat, bound: nat) {
    forall s: Schedule<T>, j: nat :: WithinAt(s, j, interval, maxBatch, bound)
  }

  ghost predicate WithinAt<T>(s: Schedule<T>, j: nat, interval: nat, maxBatch: nat, bound: nat) {
    s.interval == interval && s.maxBatch == maxBatch && j < |Trace(s, 0, 0, 0)| && Trace(s, 0, 0, 0)[j].Handed? ==>
      Trace(s, 0, 0, 0)[j].closed <= Trace(s, 0, 0, 0)[j].since + bound
  }

  /** The exact bound over all schedules; in particular a batch is sure to
      close within one interval of its first mutation only when the limit is
      at most 2 (or the interval is 0). */
  lemma OpenTimeExact<T(!new)>(m: T, interval: nat, maxBatch: nat, bound: nat)
    ensures ClosesWithin<T>(interval, maxBatch, bound) <==> (Max(1, maxBatch) - 1) * interval <= bound
  {
    if (Max(1, maxBatch) - 1) * interval <= bound {
      forall s: Schedule<T>, j: nat
        ensures WithinAt(s, j, interval, maxBatch, bound)
      {
        if s.interval == interval && s.maxBatch == maxBatch && j < |Trace(s, 0, 0, 0)| && Trace(s, 0, 0, 0)[j].Handed? {
          OpenTime(s, 0, 0, 0, j);
        }
      }
    } else {
      OpenTimeReached(m, interval, maxBatch);
      var s := Steady(m, interval, maxBatch);
      assert !WithinAt(s, 0, interval, maxBatch, bound);
    }
  }
}
