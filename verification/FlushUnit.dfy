/** What the answer to a flush is worth: a unit of mutations and its flush, for
    every number of mutations waiting before it, every limit and every sink. */
module FlushUnit {
  import opened Common
  import opened Batcher

  /** The next `n` messages are mutations and none makes the worker wait
      longer than the interval. */
  ghost predicate Prompt<T>(s: Schedule<T>, now: nat, i: nat, n: nat)
    decreases n
  {
    n == 0 ||
    (i < |s.arrivals| && s.arrivals[i].msg.M? && s.arrivals[i].at <= now + s.interval
     && Prompt(s, Max(now, s.arrivals[i].at), i + 1, n - 1))
  }

  function Unit<T>(s: Schedule<T>, i: nat, n: nat): (u: seq<T>)
    requires i + n <= |s.arrivals| && forall j :: i <= j < i + n ==> s.arrivals[j].msg.M?
    ensures |u| == n && forall j :: 0 <= j < n ==> u[j] == s.arrivals[i + j].msg.m
  {
    seq(n, j requires 0 <= j < n => s.arrivals[i + j].msg.m)
  }

  lemma {:induction false} PromptAreMutations<T>(s: Schedule<T>, now: nat, i: nat, n: nat)
    requires Prompt(s, now, i, n) && i <= |s.arrivals|
    ensures i + n <= |s.arrivals| && forall j :: i <= j < i + n ==> s.arrivals[j].msg.M?
    decreases n
  {
    if n > 0 {
      PromptAreMutations(s, Max(now, s.arrivals[i].at), i + 1, n - 1);
    }
  }

  /** Prompt mutations join the open batch as long as there is room. */
  lemma {:induction false} GatherUnit<T>(s: Schedule<T>, batch: seq<T>, now: nat, i: nat, n: nat)
    requires i <= |s.arrivals| && Prompt(s, now, i, n) && |batch| + n <= s.maxBatch
    ensures i + n <= |s.arrivals| && forall j :: i <= j < i + n ==> s.arrivals[j].msg.M?
    ensures Gather(s, batch, now, i) == Gather(s, batch + Unit(s, i, n), After(s, now, i, n), i + n)
    decreases n
  {
    PromptAreMutations(s, now, i, n);
    if n == 0 {
      assert batch + Unit(s, i, n) == batch;
    } else {
      var m, t := s.arrivals[i].msg.m, Max(now, s.arrivals[i].at);
      GatherUnit(s, batch + [m], t, i + 1, n - 1);
      assert Unit(s, i, n) == [m] + Unit(s, i + 1, n - 1);
      Associate(batch, [m], Unit(s, i + 1, n - 1));
    }
  }

  /** A flush follows in time. */
  ghost predicate FlushNext<T>(s: Schedule<T>, now: nat, i: nat, a: nat) {
    i < |s.arrivals| && s.arrivals[i].msg == Flush(a) && s.arrivals[i].at <= now + s.interval
  }

  lemma {:induction false} PromptPrefix<T>(s: Schedule<T>, now: nat, i: nat, n: nat, k: nat)
    requires Prompt(s, now, i, n) && k <= n
    ensures Prompt(s, now, i, k)
    decreases n
  {
    if k > 0 {
      PromptPrefix(s, Max(now, s.arrivals[i].at), i + 1, n - 1, k - 1);
    }
  }

  /** A flush that the batch did not take is acknowledged with success by the
      idle worker, whatever became of the batch. */
  lemma LeftoverFlush<T>(s: Schedule<T>, now: nat, i: nat, k: nat, a: nat)
    requires i < |s.arrivals| && s.arrivals[i].msg == Flush(a)
    ensures var events := Trace(s, now, i, k); events != [] && events[0] == Acked(a, Ok(()))
  {
  }

  lemma {:induction false} PromptLater<T>(s: Schedule<T>, now: nat, later: nat, i: nat, n: nat)
    requires Prompt(s, now, i, n) && now <= later && i <= |s.arrivals|
    ensures Prompt(s, later, i, n) && i + n <= |s.arrivals|
    ensures After(s, now, i, n) <= After(s, later, i, n)
    decreases n
  {
    if n > 0 {
      PromptLater(s, Max(now, s.arrivals[i].at), Max(later, s.arrivals[i].at), i + 1, n - 1);
    }
  }

  lemma {:induction false} PromptSplit<T>(s: Schedule<T>, now: nat, i: nat, n: nat, m: nat)
    requires Prompt(s, now, i, n) && m <= n && i + n <= |s.arrivals|
    ensures Prompt(s, After(s, now, i, m), i + m, n - m)
    ensures After(s, now, i, n) == After(s, After(s, now, i, m), i + m, n - m)
    decreases n
  {
    if m > 0 {
      PromptSplit(s, Max(now, s.arrivals[i].at), i + 1, n - 1, m - 1);
    }
  }

  /** `n` mutations from message `i` on and then the flush `a`, no two further
      apart than the interval for a worker that is free at `now`. */
  ghost predicate UnitThenFlush<T>(s: Schedule<T>, now: nat, i: nat, n: nat, a: nat) {
    && n >= 1 && i + n < |s.arrivals| && s.arrivals[i].msg.M?
    && var t := Max(now, s.arrivals[i].at);
       Prompt(s, t, i + 1, n - 1) && FlushNext(s, After(s, t, i + 1, n - 1), i + n, a)
  }

  lemma UnitMutations<T>(s: Schedule<T>, now: nat, i: nat, n: nat, a: nat)
    requires UnitThenFlush(s, now, i, n, a)
    ensures forall j :: i <= j < i + n ==> s.arrivals[j].msg.M?
  {
    PromptAreMutations(s, Max(now, s.arrivals[i].at), i + 1, n - 1);
  }

  /** The mutations in full batches, then what is left over with the flush; with
      nothing left over the flush is answered by itself, with success. Batch by
      batch, with the sink's reply to each. */
  ghost predicate Answered<T>(events: seq<Event<T>>, s: Schedule<T>, i: nat, n: nat, k: nat, a: nat)
    requires i + n <= |s.arrivals| && forall j :: i <= j < i + n ==> s.arrivals[j].msg.M?
    decreases n
  {
    var m := if n < Limit(s) then n else Limit(s);
    events != [] &&
    if n == 0 then events[0] == Acked(a, Ok(()))
    else
      && events[0].Handed? && events[0].batch == Unit(s, i, m) && events[0].reply == s.reply(k)
      && if n < Limit(s) then |events| > 1 && events[1] == Acked(a, s.reply(k))
         else Answered(events[1..], s, i + m, n - m, k + 1, a)
  }

  lemma LaterUnit<T>(s: Schedule<T>, x: nat, later: nat, i: nat, n: nat, a: nat)
    requires n >= 1 && i + n < |s.arrivals| && x <= later
    requires Prompt(s, x, i, n) && FlushNext(s, After(s, x, i, n), i + n, a)
    ensures UnitThenFlush(s, later, i, n, a)
  {
    var at := s.arrivals[i].at;
    PromptLater(s, Max(x, at), Max(later, at), i + 1, n - 1);
  }

  lemma UnitAfterBatch<T>(s: Schedule<T>, now: nat, i: nat, n: nat, a: nat, later: nat)
    requires UnitThenFlush(s, now, i, n, a) && n > Limit(s)
    requires later >= After(s, Max(now, s.arrivals[i].at), i + 1, Limit(s) - 1)
    ensures UnitThenFlush(s, later, i + Limit(s), n - Limit(s), a)
  {
    var l, t := Limit(s), Max(now, s.arrivals[i].at);
    PromptSplit(s, t, i + 1, n - 1, l - 1);
    LaterUnit(s, After(s, t, i + 1, l - 1), later, i + l, n - l, a);
  }

  /** A batch and what follows it. */
  lemma TraceBatch<T>(s: Schedule<T>, now: nat, i: nat, k: nat)
    requires i < |s.arrivals| && s.arrivals[i].msg.M?
    ensures var t := Max(now, s.arrivals[i].at);
            var g := Gather(s, [s.arrivals[i].msg.m], t, i + 1);
            var events := Trace(s, now, i, k);
            && events != [] && events[0] == Handed(g.batch, t, g.now, s.reply(k))
            && (g.ack.Some? ==> |events| > 1 && events[1] == Acked(g.ack.value, s.reply(k)))
            && (g.ack.None? ==> events[1..] == Trace(s, g.now + s.takes(k), g.next, k + 1))
  {
  }

  lemma WholeBatch<T>(s: Schedule<T>, now: nat, i: nat, n: nat, a: nat)
    requires UnitThenFlush(s, now, i, n, a) && n < Limit(s)
    ensures forall j :: i <= j < i + n ==> s.arrivals[j].msg.M?
    ensures var g := Gather(s, [s.arrivals[i].msg.m], Max(now, s.arrivals[i].at), i + 1);
            g.batch == Unit(s, i, n) && g.ack == Some(a)
  {
    var t, m := Max(now, s.arrivals[i].at), s.arrivals[i].msg.m;
    UnitMutations(s, now, i, n, a);
    GatherUnit(s, [m], t, i + 1, n - 1);
    assert [m] + Unit(s, i + 1, n - 1) == Unit(s, i, n);
  }

  lemma FullBatch<T>(s: Schedule<T>, now: nat, i: nat, n: nat, a: nat)
    requires UnitThenFlush(s, now, i, n, a) && n >= Limit(s)
    ensures forall j :: i <= j < i + n ==> s.arrivals[j].msg.M?
    ensures var t := Max(now, s.arrivals[i].at);
            var g := Gather(s, [s.arrivals[i].msg.m], t, i + 1);
            g.batch == Unit(s, i, Limit(s)) && g.next == i + Limit(s) && g.ack == None
            && g.now == After(s, t, i + 1, Limit(s) - 1)
  {
    var t, m, l := Max(now, s.arrivals[i].at), s.arrivals[i].msg.m, Limit(s);
    UnitMutations(s, now, i, n, a);
    assert [m] + Unit(s, i + 1, l - 1) == Unit(s, i, l);
    if l > 1 {
      PromptPrefix(s, t, i + 1, n - 1, l - 1);
      GatherUnit(s, [m], t, i + 1, l - 1);
    }
  }

  lemma ShortAnswer<T>(s: Schedule<T>, now: nat, i: nat, n: nat, k: nat, a: nat)
    requires UnitThenFlush(s, now, i, n, a) && n < Limit(s)
    ensures forall j :: i <= j < i + n ==> s.arrivals[j].msg.M?
    ensures Answered(Trace(s, now, i, k), s, i, n, k, a)
  {
    TraceBatch(s, now, i, k);
    WholeBatch(s, now, i, n, a);
  }

  /** When the worker is free again after its first batch. */
  function FreeAgain<T>(s: Schedule<T>, now: nat, i: nat, k: nat): (t: nat)
    requires i < |s.arrivals| && s.arrivals[i].msg.M?
  {
    Gather(s, [s.arrivals[i].msg.m], Max(now, s.arrivals[i].at), i + 1).now + s.takes(k)
  }

  lemma LongAnswer<T>(s: Schedule<T>, now: nat, i: nat, n: nat, k: nat, a: nat)
    requires UnitThenFlush(s, now, i, n, a) && n >= Limit(s)
    requires forall j :: i <= j < i + n ==> s.arrivals[j].msg.M?
    requires Answered(Trace(s, FreeAgain(s, now, i, k), i + Limit(s), k + 1), s, i + Limit(s), n - Limit(s), k + 1, a)
    ensures Answered(Trace(s, now, i, k), s, i, n, k, a)
  {
    TraceBatch(s, now, i, k);
    FullBatch(s, now, i, n, a);
  }

  /** What becomes of a unit and its flush, for every number of mutations that
      came before it in the same batch (they are counted in `n`), every limit
      and every sink. */
  lemma {:induction false} FlushAnswer<T>(s: Schedule<T>, now: nat, i: nat, n: nat, k: nat, a: nat)
    requires UnitThenFlush(s, now, i, n, a)
    ensures forall j :: i <= j < i + n ==> s.arrivals[j].msg.M?
    ensures Answered(Trace(s, now, i, k), s, i, n, k, a)
    decreases n
  {
    var l := Limit(s);
    if n < l {
      ShortAnswer(s, now, i, n, k, a);
    } else {
      UnitMutations(s, now, i, n, a);
      var later := FreeAgain(s, now, i, k);
      if n == l {
        LeftoverFlush(s, later, i + l, k + 1, a);
      } else {
        FullBatch(s, now, i, n, a);
        UnitAfterBatch(s, now, i, n, a, later);
        FlushAnswer(s, later, i + l, n - l, k + 1, a);
      }
      LongAnswer(s, now, i, n, k, a);
    }
  }

  /** Which event answers the flush. */
  function AckAt(n: nat, limit: nat): (c: nat)
    requires limit >= 1
    ensures n >= 1 ==> c >= 1
    decreases n
  {
    if n < limit then (if n == 0 then 0 else 1) else 1 + AckAt(n - limit, limit)
  }

  lemma {:induction false} AnswerIs<T>(events: seq<Event<T>>, s: Schedule<T>, i: nat, n: nat, k: nat, a: nat)
    requires i + n <= |s.arrivals| && forall j :: i <= j < i + n ==> s.arrivals[j].msg.M?
    requires Answered(events, s, i, n, k, a)
    ensures var c := AckAt(n, Limit(s));
            && c < |events|
            && (forall j :: 0 <= j < c ==> events[j].Handed? && events[j].reply == s.reply(k + j))
            && events[c] == Acked(a, if n % Limit(s) == 0 then Ok(()) else s.reply(k + c - 1))
    decreases n
  {
    var l := Limit(s);
    if n >= l {
      AnswerIs(events[1..], s, i + l, n - l, k + 1, a);
      assert n % l == (n - l) % l by { ModStep(n, l); }
      var c := AckAt(n, l);
      forall j | 0 <= j < c
        ensures events[j].Handed? && events[j].reply == s.reply(k + j)
      {
        assert j > 0 ==> events[j] == events[1..][j - 1];
      }
      assert events[c] == events[1..][c - 1];
    }
  }

  lemma ModStep(n: nat, l: nat)
    requires l >= 1 && n >= l
    ensures n % l == (n - l) % l
  {
    var q, r := (n - l) / l, (n - l) % l;
    assert n - l == l * q + r;
    assert l * (q + 1) == l * q + l;
    Quotient(n, l, q + 1, r);
  }

  /** With this sink, success for the flush means success for every batch that
      holds a mutation of the unit. */
  ghost predicate Vouches<T>(s: Schedule<T>, reply: nat -> Reply, now: nat, i: nat, n: nat, k: nat, a: nat)
    requires i <= |s.arrivals|
  {
    var events := Trace(s.(reply := reply), now, i, k);
    var c := AckAt(n, Limit(s));
    && c < |events| && events[c].Acked? && events[c].ack == a
    && (events[c].reply.Ok? ==> forall j :: 0 <= j < c && events[j].Handed? ==> events[j].reply.Ok?)
  }

  ghost predicate AlwaysVouches<T>(s: Schedule<T>, now: nat, i: nat, n: nat, k: nat, a: nat)
    requires i <= |s.arrivals|
  {
    forall reply: nat -> Reply :: Vouches(s, reply, now, i, n, k, a)
  }

  /** A sink that fails the first batch only. */
  function FailsFirst(k: nat): (reply: nat -> Reply) {
    j => if j == k then Err("") else Ok(())
  }

  /** With it, a unit that fills its batch is answered with success. */
  lemma FalseSuccess<T>(s: Schedule<T>, now: nat, i: nat, n: nat, k: nat, a: nat)
    requires UnitThenFlush(s, now, i, n, a) && n >= Limit(s)
    ensures !Vouches(s, FailsFirst(k), now, i, n, k, a)
  {
    var reply := FailsFirst(k);
    var events := Trace(s.(reply := reply), now, i, k);
    var c := AckAt(n, Limit(s));
    SinkAnswer(s, reply, now, i, n, k, a);
    LateAnswer(n, Limit(s));
    assert events[0].reply == reply(k);
    assert events[c].reply.Ok?;
  }

  lemma VouchesWithRoom<T>(s: Schedule<T>, now: nat, i: nat, n: nat, k: nat, a: nat)
    requires UnitThenFlush(s, now, i, n, a)
    ensures AlwaysVouches(s, now, i, n, k, a) <==> n < Limit(s)
  {
    if n < Limit(s) {
      forall reply: nat -> Reply
        ensures Vouches(s, reply, now, i, n, k, a)
      {
        SinkAnswer(s, reply, now, i, n, k, a);
      }
    } else {
      FalseSuccess(s, now, i, n, k, a);
    }
  }

  /** The exact worth of an answer. `p` mutations are waiting in the open batch
      when a unit of `n` and its flush arrive. The unit is applied in one piece
      exactly when all of them fit, and success for the flush vouches for the
      whole unit, whatever the sink does, exactly when they fit with room to
      spare. */
  lemma FlushVouches<T>(s: Schedule<T>, now: nat, i: nat, p: nat, n: nat, k: nat, a: nat)
    requires UnitThenFlush(s, now, i, p + n, a) && p < Limit(s) && n >= 1
    ensures forall j :: i <= j < i + p + n ==> s.arrivals[j].msg.M?
    ensures var events := Trace(s, now, i, k);
            && events != [] && events[0].Handed?
            && (events[0].batch == Unit(s, i, p + n) <==> p + n <= Limit(s))
    ensures AlwaysVouches(s, now, i, p + n, k, a) <==> p + n < Limit(s)
  {
    TraceBatch(s, now, i, k);
    VouchesWithRoom(s, now, i, p + n, k, a);
    if p + n < Limit(s) {
      WholeBatch(s, now, i, p + n, a);
    } else {
      FullBatch(s, now, i, p + n, a);
    }
  }

  lemma SinkAnswer<T>(s: Schedule<T>, reply: nat -> Reply, now: nat, i: nat, n: nat, k: nat, a: nat)
    requires UnitThenFlush(s, now, i, n, a)
    ensures var events := Trace(s.(reply := reply), now, i, k);
            var c := AckAt(n, Limit(s));
            && c < |events|
            && (forall j :: 0 <= j < c ==> events[j].Handed? && events[j].reply == reply(k + j))
            && events[c] == Acked(a, if n % Limit(s) == 0 then Ok(()) else reply(k + c - 1))
  {
    var q := s.(reply := reply);
    SameTimes(s, reply, now, i, n, a);
    FlushAnswer(q, now, i, n, k, a);
    AnswerIs(Trace(q, now, i, k), q, i, n, k, a);
  }

  lemma SameTimes<T>(s: Schedule<T>, reply: nat -> Reply, now: nat, i: nat, n: nat, a: nat)
    requires UnitThenFlush(s, now, i, n, a)
    ensures UnitThenFlush(s.(reply := reply), now, i, n, a)
  {
    var t := Max(now, s.arrivals[i].at);
    UnitMutations(s, now, i, n, a);
    SamePrompt(s, reply, t, i + 1, n - 1);
  }

  lemma {:induction false} SamePrompt<T>(s: Schedule<T>, reply: nat -> Reply, now: nat, i: nat, n: nat)
    requires Prompt(s, now, i, n) && i + n <= |s.arrivals|
    ensures Prompt(s.(reply := reply), now, i, n)
    ensures After(s.(reply := reply), now, i, n) == After(s, now, i, n)
    decreases n
  {
    if n > 0 {
      SamePrompt(s, reply, Max(now, s.arrivals[i].at), i + 1, n - 1);
    }
  }

  /** Past the limit the answering batch, if any, is not the first. */
  lemma LateAnswer(n: nat, limit: nat)
    requires n >= limit >= 1
    ensures AckAt(n, limit) >= 1 && (n % limit != 0 ==> AckAt(n, limit) >= 2)
  {
    if n < 2 * limit {
      ModStep(n, limit);
    }
  }
}
