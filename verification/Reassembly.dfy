/** TCP stream reassembly from captured segments: sort by sequence number,
    then merge with overlaps, repeats and gaps. */
module Reassembly {
  import opened Common

  /** Sequence number, TCP flags and payload. */
  datatype Segment = Segment(start: nat, flags: byte, payload: seq<byte>)

  function EndOf(s: Segment): (e: nat) {
    s.start + |s.payload|
  }

  /** The bit 0x02 of the flags. */
  predicate IsSyn(s: Segment) {
    s.flags / 2 % 2 == 1
  }

  // -------------------------------------------------------------- the sort

  function Insert(s: Segment, sorted: seq<Segment>): (r: seq<Segment>)
    ensures multiset(r) == multiset(sorted) + multiset{s}
  {
    if sorted == [] || s.start <= sorted[0].start then [s] + sorted
    else
      assert sorted == [sorted[0]] + sorted[1..];
      [sorted[0]] + Insert(s, sorted[1..])
  }

  /** The stable sort by sequence number. */
  function Sort(segments: seq<Segment>): (r: seq<Segment>)
    ensures multiset(r) == multiset(segments)
  {
    if segments == [] then []
    else
      assert segments == [segments[0]] + segments[1..];
      Insert(segments[0], Sort(segments[1..]))
  }

  ghost predicate Ordered(segs: seq<Segment>) {
    forall i, j :: 0 <= i < j < |segs| ==> segs[i].start <= segs[j].start
  }

  lemma {:induction false} InsertOrdered(s: Segment, sorted: seq<Segment>)
    requires Ordered(sorted)
    ensures Ordered(Insert(s, sorted))
  {
    if sorted != [] && s.start > sorted[0].start {
      InsertOrdered(s, sorted[1..]);
      var r := Insert(s, sorted[1..]);
      forall j | 0 <= j < |r|
        ensures sorted[0].start <= r[j].start
      {
        assert r[j] in multiset(r);
        if r[j] != s {
          assert r[j] in sorted[1..];
          var k :| 0 <= k < |sorted[1..]| && sorted[1..][k] == r[j];
          assert sorted[k + 1] == r[j];
        }
      }
    }
  }

  lemma {:induction false} SortOrdered(segments: seq<Segment>)
    ensures Ordered(Sort(segments))
  {
    if segments != [] {
      SortOrdered(segments[1..]);
      InsertOrdered(segments[0], Sort(segments[1..]));
    }
  }

  // ------------------------------------------------------------- the merge

  /** One past the first SYN, or else where the first segment starts. */
  function Base(sorted: seq<Segment>): (b: nat) {
    if sorted == [] then 0
    else
      var syn := FirstSyn(sorted);
      if syn.Some? then syn.value.start + 1 else sorted[0].start
  }

  function FirstSyn(sorted: seq<Segment>): (r: Option<Segment>) {
    if sorted == [] then None
    else if IsSyn(sorted[0]) then Some(sorted[0])
    else FirstSyn(sorted[1..])
  }

  /** What a segment adds when the next expected byte is `next`, and the
      number expected after it. */
  function Adds(s: Segment, next: nat): (bytes: seq<byte>) {
    if s.payload == [] then []
    else if s.start >= next then s.payload
    else if next - s.start < |s.payload| then s.payload[next - s.start..]
    else []
  }

  function NextAfter(s: Segment, next: nat): (n: nat)
    ensures n >= next
  {
    if s.payload == [] || EndOf(s) <= next then next else EndOf(s)
  }

  function Merge(segs: seq<Segment>, next: nat): (bytes: seq<byte>) {
    if segs == [] then [] else Adds(segs[0], next) + Merge(segs[1..], NextAfter(segs[0], next))
  }

  function Assemble(segments: seq<Segment>): (bytes: seq<byte>) {
    Merge(Sort(segments), Base(Sort(segments)))
  }

  /** The loop that looks for the first SYN. */
  method FindBase(sorted: seq<Segment>) returns (base: nat)
    requires sorted != []
    ensures base == Base(sorted)
  {
    assert sorted[0..] == sorted;
    for i := 0 to |sorted|
      invariant FirstSyn(sorted) == FirstSyn(sorted[i..])
    {
      assert sorted[i..][0] == sorted[i] && sorted[i..][1..] == sorted[i + 1..];
      if IsSyn(sorted[i]) {
        return sorted[i].start + 1;
      }
    }
    return sorted[0].start;
  }

  lemma MergeStep(sorted: seq<Segment>, k: nat, next: nat)
    requires k < |sorted|
    ensures Merge(sorted[k..], next) == Adds(sorted[k], next) + Merge(sorted[k + 1..], NextAfter(sorted[k], next))
  {
    assert sorted[k..][0] == sorted[k] && sorted[k..][1..] == sorted[k + 1..];
  }

  /** One turn of the merge loop. */
  method MergeOne(s: Segment, out: seq<byte>, next: nat) returns (out': seq<byte>, next': nat)
    ensures out' == out + Adds(s, next) && next' == NextAfter(s, next)
  {
    out', next' := out, next;
    assert out + [] == out;
    if s.payload == [] {
    } else if s.start == next {
      out' := out + s.payload;
      next' := next + |s.payload|;
    } else if s.start < next {
      var skip := next - s.start;
      if skip < |s.payload| {
        out' := out + s.payload[skip..];
        next' := next + |s.payload| - skip;
      }
    } else {
      out' := out + s.payload;
      next' := s.start + |s.payload|;
    }
  }

  /** The loop that merges the sorted segments. */
  method MergeAll(sorted: seq<Segment>, base: nat) returns (out: seq<byte>)
    ensures out == Merge(sorted, base)
  {
    out := [];
    var next: nat := base;
    assert sorted[0..] == sorted && [] + Merge(sorted, base) == Merge(sorted, base);
    for k := 0 to |sorted|
      invariant Merge(sorted, base) == out + Merge(sorted[k..], next)
    {
      MergeStep(sorted, k, next);
      Associate(out, Adds(sorted[k], next), Merge(sorted[k + 1..], NextAfter(sorted[k], next)));
      out, next := MergeOne(sorted[k], out, next);
    }
    assert out + [] == out;
  }

  lemma SortKeepsLength(segments: seq<Segment>)
    ensures |Sort(segments)| == |segments|
  {
    assert |multiset(Sort(segments))| == |multiset(segments)|;
  }

  /** `reassemble`. */
  method Reassemble(segments: seq<Segment>) returns (out: seq<byte>)
    ensures out == Assemble(segments)
  {
    if segments == [] {
      return [];
    }
    var sorted := Sort(segments);
    SortKeepsLength(segments);
    var base := FindBase(sorted);
    out := MergeAll(sorted, base);
  }

  // ---------------------------------------------------------- what comes out

  /** Byte `i` of the segment is the stream's byte there, if it lies at or
      after the base; `stream[0]` has sequence number `base`. */
  ghost predicate AgreesAt(s: Segment, i: nat, base: nat, stream: seq<byte>)
    requires i < |s.payload|
  {
    s.start + i >= base ==>
      s.start + i - base < |stream| && s.payload[i] == stream[s.start + i - base]
  }

  ghost predicate SliceOf(s: Segment, base: nat, stream: seq<byte>) {
    forall i :: 0 <= i < |s.payload| ==> AgreesAt(s, i, base, stream)
  }

  ghost predicate AllSlices(segs: seq<Segment>, base: nat, stream: seq<byte>) {
    forall i :: 0 <= i < |segs| ==> SliceOf(segs[i], base, stream)
  }

  ghost predicate Carries(s: Segment, n: nat) {
    s.start <= n < EndOf(s)
  }

  /** Some segment carries the byte with this sequence number. */
  ghost predicate Covered(segs: seq<Segment>, n: nat) {
    exists i :: 0 <= i < |segs| && Carries(segs[i], n)
  }

  /** The covered bytes of the stream from offset `from` on, in order. */
  ghost function Pick(segs: seq<Segment>, base: nat, stream: seq<byte>, from: nat): (p: seq<byte>)
    requires from <= |stream|
    decreases |stream| - from
  {
    if from == |stream| then []
    else (if Covered(segs, base + from) then [stream[from]] else []) + Pick(segs, base, stream, from + 1)
  }

  lemma {:induction false} PickSame(a: seq<Segment>, b: seq<Segment>, base: nat, stream: seq<byte>, from: nat)
    requires from <= |stream|
    requires forall n :: n >= base + from ==> (Covered(a, n) <==> Covered(b, n))
    ensures Pick(a, base, stream, from) == Pick(b, base, stream, from)
    decreases |stream| - from
  {
    if from < |stream| {
      PickSame(a, b, base, stream, from + 1);
    }
  }

  /** A stretch with nothing covered contributes nothing. */
  lemma {:induction false} PickGap(segs: seq<Segment>, base: nat, stream: seq<byte>, from: nat, to: nat)
    requires from <= to <= |stream|
    requires forall n :: base + from <= n < base + to ==> !Covered(segs, n)
    ensures Pick(segs, base, stream, from) == Pick(segs, base, stream, to)
    decreases |stream| - from
  {
    if from < to {
      PickGap(segs, base, stream, from + 1, to);
    }
  }

  /** A stretch covered throughout contributes itself. */
  lemma {:induction false} PickRun(segs: seq<Segment>, base: nat, stream: seq<byte>, from: nat, to: nat)
    requires from <= to <= |stream|
    requires forall n :: base + from <= n < base + to ==> Covered(segs, n)
    ensures Pick(segs, base, stream, from) == stream[from..to] + Pick(segs, base, stream, to)
    decreases |stream| - from
  {
    if from < to {
      PickRun(segs, base, stream, from + 1, to);
      assert stream[from..to] == [stream[from]] + stream[from + 1..to];
      Associate([stream[from]], stream[from + 1..to], Pick(segs, base, stream, to));
    } else {
      assert stream[from..to] == [];
    }
  }

  lemma CoveredCons(segs: seq<Segment>, n: nat)
    requires segs != []
    ensures Covered(segs, n) <==> Carries(segs[0], n) || Covered(segs[1..], n)
  {
    if Covered(segs[1..], n) {
      var i :| 0 <= i < |segs[1..]| && Carries(segs[1..][i], n);
      assert Carries(segs[i + 1], n);
    }
    if Covered(segs, n) && !Carries(segs[0], n) {
      var i :| 0 <= i < |segs| && Carries(segs[i], n);
      assert Carries(segs[1..][i - 1], n);
    }
  }

  lemma UncoveredBefore(segs: seq<Segment>, n: nat)
    requires Ordered(segs) && (segs == [] || n < segs[0].start)
    ensures !Covered(segs, n)
  {
    forall i | 0 <= i < |segs|
      ensures !Carries(segs[i], n)
    {
      assert i > 0 ==> segs[0].start <= segs[i].start;
    }
  }

  /** What a segment adds is a stretch of the stream. */
  lemma AddsIsSlice(s: Segment, base: nat, stream: seq<byte>, next: nat)
    requires SliceOf(s, base, stream) && next >= base && EndOf(s) > next && s.payload != []
    ensures var from := (if s.start >= next then s.start else next) - base;
            && from <= EndOf(s) - base <= |stream|
            && Adds(s, next) == stream[from..EndOf(s) - base]
  {
    var from := (if s.start >= next then s.start else next) - base;
    var last := |s.payload| - 1;
    assert AgreesAt(s, last, base, stream);
    var a, b := Adds(s, next), stream[from..EndOf(s) - base];
    assert |a| == |b|;
    forall j | 0 <= j < |a|
      ensures a[j] == b[j]
    {
      var i := from + base + j - s.start;
      assert AgreesAt(s, i, base, stream);
      assert a[j] == s.payload[i] && b[j] == stream[s.start + i - base];
    }
  }

  /** A segment with nothing new does not matter for the bytes to come. */
  lemma PickPast(segs: seq<Segment>, base: nat, stream: seq<byte>, next: nat)
    requires segs != [] && base <= next <= base + |stream|
    requires segs[0].payload == [] || EndOf(segs[0]) <= next
    ensures Pick(segs, base, stream, next - base) == Pick(segs[1..], base, stream, next - base)
  {
    forall n: nat | n >= base + (next - base)
      ensures Covered(segs, n) <==> Covered(segs[1..], n)
    {
      CoveredCons(segs, n);
    }
    PickSame(segs, segs[1..], base, stream, next - base);
  }

  /** What the first segment adds is what the stream has there, with what lies
      before it uncovered. */
  lemma PickFirst(segs: seq<Segment>, base: nat, stream: seq<byte>, next: nat)
    requires segs != [] && Ordered(segs) && SliceOf(segs[0], base, stream)
    requires base <= next <= base + |stream| && segs[0].payload != [] && EndOf(segs[0]) > next
    ensures EndOf(segs[0]) <= base + |stream|
    ensures Pick(segs, base, stream, next - base)
         == Adds(segs[0], next) + Pick(segs, base, stream, EndOf(segs[0]) - base)
  {
    var s := segs[0];
    AddsIsSlice(s, base, stream, next);
    var from, to := (if s.start >= next then s.start else next) - base, EndOf(s) - base;
    forall n: nat | base + (next - base) <= n < base + from
      ensures !Covered(segs, n)
    {
      UncoveredBefore(segs, n);
    }
    forall n: nat | base + from <= n < base + to
      ensures Covered(segs, n)
    {
      CoveredCons(segs, n);
    }
    PickGap(segs, base, stream, next - base, from);
    PickRun(segs, base, stream, from, to);
  }

  lemma MergeSkips(segs: seq<Segment>, base: nat, stream: seq<byte>, next: nat)
    requires segs != [] && base <= next <= base + |stream|
    requires segs[0].payload == [] || EndOf(segs[0]) <= next
    requires Merge(segs[1..], next) == Pick(segs[1..], base, stream, next - base)
    ensures Merge(segs, next) == Pick(segs, base, stream, next - base)
  {
    PickPast(segs, base, stream, next);
    assert Adds(segs[0], next) == [];
    assert [] + Merge(segs[1..], next) == Merge(segs[1..], next);
  }

  lemma MergeHead(segs: seq<Segment>, next: nat, tail: seq<byte>)
    requires segs != [] && segs[0].payload != [] && next < EndOf(segs[0])
    requires Merge(segs[1..], EndOf(segs[0])) == tail
    ensures Merge(segs, next) == Adds(segs[0], next) + tail
  {
  }

  lemma PickTakes(segs: seq<Segment>, base: nat, stream: seq<byte>, next: nat, tail: seq<byte>)
    requires segs != [] && Ordered(segs) && SliceOf(segs[0], base, stream)
    requires base <= next <= base + |stream| && segs[0].payload != []
    requires next < EndOf(segs[0]) <= base + |stream|
    requires Pick(segs[1..], base, stream, EndOf(segs[0]) - base) == tail
    ensures Pick(segs, base, stream, next - base) == Adds(segs[0], next) + tail
  {
    PickFirst(segs, base, stream, next);
    PickPast(segs, base, stream, EndOf(segs[0]));
  }

  lemma {:induction false} MergePicks(segs: seq<Segment>, base: nat, stream: seq<byte>, next: nat)
    requires Ordered(segs) && AllSlices(segs, base, stream)
    requires base <= next <= base + |stream|
    ensures Merge(segs, next) == Pick(segs, base, stream, next - base)
    decreases |segs|
  {
    if segs == [] {
      PickGap(segs, base, stream, next - base, |stream|);
    } else {
      var s := segs[0];
      assert SliceOf(s, base, stream);
      if s.payload == [] || EndOf(s) <= next {
        MergePicks(segs[1..], base, stream, next);
        MergeSkips(segs, base, stream, next);
      } else {
        AddsIsSlice(s, base, stream, next);
        MergePicks(segs[1..], base, stream, EndOf(s));
        MergeHead(segs, next, Merge(segs[1..], EndOf(s)));
        PickTakes(segs, base, stream, next, Merge(segs[1..], EndOf(s)));
      }
    }
  }

  lemma CoveredSorted(segments: seq<Segment>, n: nat)
    ensures Covered(Sort(segments), n) <==> Covered(segments, n)
  {
    var sorted := Sort(segments);
    if Covered(segments, n) {
      var i :| 0 <= i < |segments| && Carries(segments[i], n);
      assert segments[i] in multiset(segments);
      assert segments[i] in sorted;
    }
    if Covered(sorted, n) {
      var i :| 0 <= i < |sorted| && Carries(sorted[i], n);
      assert sorted[i] in multiset(sorted);
      assert sorted[i] in segments;
    }
  }

  ghost function BaseOf(segments: seq<Segment>): (b: nat) {
    Base(Sort(segments))
  }

  /** For segments of one stream in any arrival order, with any overlaps,
      repeats and gaps, the result is the stream with exactly the bytes that
      no segment carries left out. */
  lemma AssembleIsCoverage(segments: seq<Segment>, stream: seq<byte>)
    requires AllSlices(segments, BaseOf(segments), stream)
    ensures Assemble(segments) == Pick(segments, BaseOf(segments), stream, 0)
  {
    var base, sorted := BaseOf(segments), Sort(segments);
    SortOrdered(segments);
    forall i | 0 <= i < |sorted|
      ensures SliceOf(sorted[i], base, stream)
    {
      assert sorted[i] in multiset(sorted);
      assert sorted[i] in segments;
    }
    MergePicks(sorted, base, stream, base);
    forall n: nat
      ensures Covered(sorted, n) <==> Covered(segments, n)
    {
      CoveredSorted(segments, n);
    }
    PickSame(sorted, segments, base, stream, 0);
  }

  ghost predicate FullyCovered(segments: seq<Segment>, base: nat, length: nat) {
    forall n: nat :: base <= n < base + length ==> Covered(segments, n)
  }

  lemma {:induction false} PickShorter(segs: seq<Segment>, base: nat, stream: seq<byte>, from: nat)
    requires from <= |stream|
    ensures |Pick(segs, base, stream, from)| <= |stream| - from
    ensures |Pick(segs, base, stream, from)| == |stream| - from ==>
              forall n: nat :: base + from <= n < base + |stream| ==> Covered(segs, n)
    decreases |stream| - from
  {
    if from < |stream| {
      PickShorter(segs, base, stream, from + 1);
    }
  }

  lemma PickAll(segs: seq<Segment>, base: nat, stream: seq<byte>)
    requires FullyCovered(segs, base, |stream|)
    ensures Pick(segs, base, stream, 0) == stream
  {
    PickRun(segs, base, stream, 0, |stream|);
    assert stream[0..|stream|] == stream && stream + [] == stream;
  }

  /** The stream comes back exactly when no byte of it is missing from the
      capture. */
  lemma ReassemblyExact(segments: seq<Segment>, stream: seq<byte>)
    requires AllSlices(segments, BaseOf(segments), stream)
    ensures Assemble(segments) == stream <==> FullyCovered(segments, BaseOf(segments), |stream|)
  {
    var base := BaseOf(segments);
    AssembleIsCoverage(segments, stream);
    PickShorter(segments, base, stream, 0);
    if FullyCovered(segments, base, |stream|) {
      PickAll(segments, base, stream);
    }
  }

  lemma {:induction false} FirstSynLeast(sorted: seq<Segment>)
    requires Ordered(sorted)
    ensures match FirstSyn(sorted)
            case Some(x) => x in sorted && IsSyn(x) &&
                            forall i :: 0 <= i < |sorted| && IsSyn(sorted[i]) ==> x.start <= sorted[i].start
            case None => forall i :: 0 <= i < |sorted| ==> !IsSyn(sorted[i])
  {
    if sorted != [] && !IsSyn(sorted[0]) {
      FirstSynLeast(sorted[1..]);
      forall i | 0 < i < |sorted|
        ensures sorted[i] == sorted[1..][i - 1]
      {
      }
    }
  }

  lemma SameElements(a: seq<Segment>, b: seq<Segment>, x: Segment)
    requires multiset(a) == multiset(b) && x in a
    ensures x in b
  {
    assert x in multiset(b);
  }

  /** The base is at most what another order of the same segments gives. */
  lemma BaseAtMost(a: seq<Segment>, b: seq<Segment>)
    requires multiset(a) == multiset(b) && Ordered(a) && Ordered(b) && a != [] && b != []
    ensures Base(a) <= Base(b)
  {
    FirstSynLeast(a);
    FirstSynLeast(b);
    var x, y := FirstSyn(a), FirstSyn(b);
    if x.Some? {
      SameElements(a, b, x.value);
    }
    if y.Some? {
      SameElements(b, a, y.value);
    }
    SameElements(b, a, b[0]);
    var i :| 0 <= i < |a| && a[i] == b[0];
    assert a[0].start <= a[i].start;
  }

  /** Base and arrival order: the same segments give the same base. */
  lemma BaseDetermined(a: seq<Segment>, b: seq<Segment>)
    requires multiset(a) == multiset(b)
    ensures BaseOf(a) == BaseOf(b)
  {
    SortOrdered(a);
    SortOrdered(b);
    SortKeepsLength(a);
    SortKeepsLength(b);
    assert |a| == |multiset(a)| && |b| == |multiset(b)|;
    if a != [] {
      BaseAtMost(Sort(a), Sort(b));
      BaseAtMost(Sort(b), Sort(a));
    }
  }

  /** Arrival order does not matter: captures with the same segments give the
      same stream. */
  lemma ArrivalOrder(segments: seq<Segment>, others: seq<Segment>, stream: seq<byte>)
    requires multiset(segments) == multiset(others)
    requires AllSlices(segments, BaseOf(segments), stream)
    ensures Assemble(segments) == Assemble(others)
  {
    BaseDetermined(segments, others);
    var base := BaseOf(segments);
    forall i | 0 <= i < |others|
      ensures SliceOf(others[i], base, stream)
    {
      assert others[i] in multiset(segments);
      assert others[i] in segments;
    }
    AssembleIsCoverage(segments, stream);
    AssembleIsCoverage(others, stream);
    forall n: nat
      ensures Covered(segments, n) <==> Covered(others, n)
    {
      if Covered(segments, n) {
        SameCoverage(segments, others, n);
      }
      if Covered(others, n) {
        SameCoverage(others, segments, n);
      }
    }
    PickSame(segments, others, base, stream, 0);
  }

  lemma SameCoverage(a: seq<Segment>, b: seq<Segment>, n: nat)
    requires multiset(a) == multiset(b) && Covered(a, n)
    ensures Covered(b, n)
  {
    var i :| 0 <= i < |a| && Carries(a[i], n);
    assert a[i] in multiset(b);
    assert a[i] in b;
  }

  // ------------------------------------------------------ a SYN with payload

  /** A capture of `stream` with the numbering of section 3.4 of RFC 9293: a SYN
      takes one sequence number, so its payload begins the stream one past its
      start. `y` is the SYN with the longest payload; what else starts before
      the base with a payload is that SYN again, perhaps with a shorter payload.
      Other segments may carry any bytes of the stream, also those of the SYN's
      payload sent again, and bytes may be missing. */
  ghost predicate SynCapture(segments: seq<Segment>, y: nat, stream: seq<byte>) {
    && y < |segments| && IsSyn(segments[y]) && BaseOf(segments) == segments[y].start + 1
    && segments[y].payload <= stream
    && forall i :: 0 <= i < |segments| ==>
         || Early(segments[i], BaseOf(segments), segments[y].payload)
         || Late(segments[i], BaseOf(segments), stream)
  }

  /** Nothing, or the SYN's place with a part of its payload from the front. */
  ghost predicate Early(s: Segment, base: nat, p: seq<byte>) {
    s.start < base && (s.payload == [] || (s.start + 1 == base && s.payload <= p))
  }

  ghost predicate Late(s: Segment, base: nat, stream: seq<byte>) {
    s.start >= base && SliceOf(s, base, stream)
  }

  ghost predicate AllEarly(early: seq<Segment>, base: nat, p: seq<byte>) {
    forall i :: 0 <= i < |early| ==> Early(early[i], base, p)
  }

  ghost predicate AllLate(late: seq<Segment>, base: nat, stream: seq<byte>) {
    forall i :: 0 <= i < |late| ==> Late(late[i], base, stream)
  }

  /** Some segment has the whole payload. */
  ghost predicate Whole(early: seq<Segment>, p: seq<byte>) {
    exists i :: 0 <= i < |early| && early[i].payload == p
  }

  /** The number expected after all of `segs`. */
  function NextAll(segs: seq<Segment>, next: nat): (n: nat)
    ensures n >= next
  {
    if segs == [] then next else NextAll(segs[1..], NextAfter(segs[0], next))
  }

  lemma MergeCons(s: Segment, rest: seq<Segment>, next: nat)
    ensures Merge([s] + rest, next) == Adds(s, next) + Merge(rest, NextAfter(s, next))
  {
    assert ([s] + rest)[1..] == rest;
  }

  lemma MergeAppendStep(s: Segment, a: seq<Segment>, b: seq<Segment>, next: nat, x: seq<byte>, y: seq<byte>)
    requires x == Merge(a, NextAfter(s, next)) && Merge(a + b, NextAfter(s, next)) == x + y
    ensures Merge([s] + (a + b), next) == Merge([s] + a, next) + y
  {
    MergeCons(s, a + b, next);
    MergeCons(s, a, next);
    Associate(Adds(s, next), x, y);
  }

  lemma {:induction false} MergeAppend(a: seq<Segment>, b: seq<Segment>, next: nat)
    ensures Merge(a + b, next) == Merge(a, next) + Merge(b, NextAll(a, next))
    decreases |a|
  {
    if a == [] {
      assert a + b == b && [] + Merge(b, next) == Merge(b, next);
    } else {
      var s, rest := a[0], a[1..];
      assert a == [s] + rest && a + b == [s] + (rest + b);
      MergeAppend(rest, b, NextAfter(s, next));
      MergeAppendStep(s, rest, b, next, Merge(rest, NextAfter(s, next)), Merge(b, NextAll(a, next)));
    }
  }

  /** Counted from the SYN itself, early segments are slices of its payload. */
  lemma EarlySlices(early: seq<Segment>, base: nat, p: seq<byte>)
    requires AllEarly(early, base + 1, p)
    ensures AllSlices(early, base, p)
  {
    forall k | 0 <= k < |early|
      ensures SliceOf(early[k], base, p)
    {
      assert Early(early[k], base + 1, p);
    }
  }

  lemma EarlyCovers(early: seq<Segment>, base: nat, p: seq<byte>)
    requires AllEarly(early, base + 1, p) && Whole(early, p) && p != []
    ensures FullyCovered(early, base + 1, |p| - 1)
  {
    var i :| 0 <= i < |early| && early[i].payload == p;
    assert Early(early[i], base + 1, p);
    forall n: nat | base + 1 <= n < base + 1 + (|p| - 1)
      ensures Covered(early, n)
    {
      assert Carries(early[i], n);
    }
  }

  /** Everything from byte `at` on, if it is carried. */
  lemma PickRest(segs: seq<Segment>, base: nat, stream: seq<byte>, at: nat)
    requires at <= |stream| && FullyCovered(segs, base + at, |stream| - at)
    ensures Pick(segs, base, stream, at) == stream[at..]
  {
    PickRun(segs, base, stream, at, |stream|);
    assert stream[at..|stream|] == stream[at..] && stream[at..] + [] == stream[at..];
  }

  /** The early segments together add the payload without its first byte. */
  lemma EarlyMerge(early: seq<Segment>, base: nat, p: seq<byte>)
    requires Ordered(early) && AllEarly(early, base + 1, p) && Whole(early, p) && p != []
    ensures Merge(early, base + 1) == p[1..]
  {
    EarlySlices(early, base, p);
    EarlyCovers(early, base, p);
    MergePicks(early, base, p, base + 1);
    PickRest(early, base, p, 1);
  }

  /** After them the place of the payload's last byte is expected once more. */
  lemma {:induction false} EarlyNext(early: seq<Segment>, base: nat, p: seq<byte>, next: nat)
    requires AllEarly(early, base + 1, p) && base + 1 <= next <= base + |p|
    ensures next <= NextAll(early, next) <= base + |p|
    ensures Whole(early, p) ==> NextAll(early, next) == base + |p|
    decreases |early|
  {
    if early != [] {
      assert Early(early[0], base + 1, p);
      EarlyNext(early[1..], base, p, NextAfter(early[0], next));
      if Whole(early, p) && early[0].payload != p {
        var i :| 0 <= i < |early| && early[i].payload == p;
        assert early[1..][i - 1].payload == p;
      }
    }
  }

  lemma LateMerge(late: seq<Segment>, base: nat, stream: seq<byte>, at: nat)
    requires Ordered(late) && AllLate(late, base, stream) && at <= |stream|
    ensures Merge(late, base + at) == Pick(late, base, stream, at)
  {
    forall i | 0 <= i < |late|
      ensures SliceOf(late[i], base, stream)
    {
      assert Late(late[i], base, stream);
    }
    MergePicks(late, base, stream, base + at);
  }

  /** Early segments carry nothing from the payload's last place on. */
  lemma LateCoverage(early: seq<Segment>, late: seq<Segment>, base: nat, p: seq<byte>, n: nat)
    requires AllEarly(early, base + 1, p) && n >= base + |p|
    ensures Covered(early + late, n) <==> Covered(late, n)
  {
    forall i | 0 <= i < |early|
      ensures !Carries((early + late)[i], n)
    {
      assert Early(early[i], base + 1, p);
    }
    if Covered(late, n) {
      var i :| 0 <= i < |late| && Carries(late[i], n);
      assert Carries((early + late)[|early| + i], n);
    }
    if Covered(early + late, n) {
      var i :| 0 <= i < |early + late| && Carries((early + late)[i], n);
      assert Carries(late[i - |early|], n);
    }
  }

  /** Where the segments that start at or after the base begin. */
  lemma {:induction false} SplitAtBase(segs: seq<Segment>, base: nat) returns (n: nat)
    requires Ordered(segs)
    ensures n <= |segs|
    ensures forall i :: 0 <= i < n ==> segs[i].start < base
    ensures forall i :: n <= i < |segs| ==> segs[i].start >= base
  {
    n := 0;
    while n < |segs| && segs[n].start < base
      invariant n <= |segs| && forall i :: 0 <= i < n ==> segs[i].start < base
    {
      n := n + 1;
    }
  }

  lemma SortedEither(segments: seq<Segment>, y: nat, stream: seq<byte>, s: Segment)
    requires SynCapture(segments, y, stream) && s in Sort(segments)
    ensures Early(s, BaseOf(segments), segments[y].payload) || Late(s, BaseOf(segments), stream)
  {
    SameElements(Sort(segments), segments, s);
  }

  lemma OrderedParts(segs: seq<Segment>, n: nat)
    requires Ordered(segs) && n <= |segs|
    ensures Ordered(segs[..n]) && Ordered(segs[n..])
  {
  }

  /** In order, the segments of a capture are early ones and then late ones. */
  lemma KindParts(segs: seq<Segment>, base: nat, p: seq<byte>, stream: seq<byte>) returns (n: nat)
    requires Ordered(segs)
    requires forall s :: s in segs ==> Early(s, base, p) || Late(s, base, stream)
    ensures n <= |segs| && AllEarly(segs[..n], base, p) && AllLate(segs[n..], base, stream)
  {
    n := SplitAtBase(segs, base);
    forall i | 0 <= i < n
      ensures Early(segs[i], base, p)
    {
      assert segs[i] in segs;
    }
    forall i | n <= i < |segs|
      ensures Late(segs[i], base, stream)
    {
      assert segs[i] in segs;
    }
  }

  lemma WholePart(segs: seq<Segment>, n: nat, base: nat, p: seq<byte>, stream: seq<byte>, y: Segment)
    requires n <= |segs| && AllLate(segs[n..], base, stream)
    requires y in segs && y.payload == p && y.start < base
    ensures Whole(segs[..n], p)
  {
    forall i | 0 <= i < |segs[n..]|
      ensures segs[n..][i] != y
    {
      assert Late(segs[n..][i], base, stream);
    }
    assert segs == segs[..n] + segs[n..];
    assert y in segs[..n];
  }

  lemma SortedParts(segments: seq<Segment>, y: nat, stream: seq<byte>) returns (early: seq<Segment>, late: seq<Segment>)
    requires SynCapture(segments, y, stream)
    ensures Sort(segments) == early + late && Ordered(early) && Ordered(late)
    ensures AllEarly(early, BaseOf(segments), segments[y].payload) && Whole(early, segments[y].payload)
    ensures AllLate(late, BaseOf(segments), stream)
  {
    var sorted, base, p := Sort(segments), BaseOf(segments), segments[y].payload;
    SortOrdered(segments);
    forall s | s in sorted
      ensures Early(s, base, p) || Late(s, base, stream)
    {
      SortedEither(segments, y, stream, s);
    }
    var n := KindParts(sorted, base, p, stream);
    OrderedParts(sorted, n);
    SameElements(segments, sorted, segments[y]);
    WholePart(sorted, n, base, p, stream, segments[y]);
    early, late := sorted[..n], sorted[n..];
  }

  lemma EarlyThen(early: seq<Segment>, late: seq<Segment>, base: nat, p: seq<byte>)
    requires Ordered(early) && AllEarly(early, base + 1, p) && Whole(early, p) && p != []
    ensures Merge(early + late, base + 1) == p[1..] + Merge(late, base + |p|)
  {
    EarlyMerge(early, base, p);
    EarlyNext(early, base, p, base + 1);
    MergeAppend(early, late, base + 1);
  }

  lemma MergeParts(early: seq<Segment>, late: seq<Segment>, base: nat, p: seq<byte>, stream: seq<byte>)
    requires Ordered(early) && AllEarly(early, base + 1, p) && Whole(early, p) && p != []
    requires Ordered(late) && AllLate(late, base + 1, stream) && |p| <= |stream|
    ensures Merge(early + late, base + 1) == p[1..] + Pick(late, base + 1, stream, |p| - 1)
  {
    EarlyThen(early, late, base, p);
    LateMerge(late, base + 1, stream, |p| - 1);
  }

  lemma LateBytes(segments: seq<Segment>, early: seq<Segment>, late: seq<Segment>, base: nat, p: seq<byte>,
                  stream: seq<byte>, at: nat)
    requires Sort(segments) == early + late && AllEarly(early, base + 1, p)
    requires at + 1 == |p| && |p| <= |stream|
    ensures Pick(late, base + 1, stream, at) == Pick(segments, base + 1, stream, at)
  {
    forall n: nat | n >= base + 1 + at
      ensures Covered(late, n) <==> Covered(segments, n)
    {
      LateCoverage(early, late, base, p, n);
      CoveredSorted(segments, n);
    }
    PickSame(late, segments, base + 1, stream, at);
  }

  lemma AssembleParts(segments: seq<Segment>, early: seq<Segment>, late: seq<Segment>, base: nat, p: seq<byte>,
                      stream: seq<byte>)
    requires Sort(segments) == early + late && BaseOf(segments) == base + 1
    requires Ordered(early) && AllEarly(early, base + 1, p) && Whole(early, p) && p != []
    requires Ordered(late) && AllLate(late, base + 1, stream) && |p| <= |stream|
    ensures Assemble(segments) == p[1..] + Pick(segments, base + 1, stream, |p| - 1)
  {
    MergeParts(early, late, base, p, stream);
    LateBytes(segments, early, late, base, p, stream, |p| - 1);
  }

  lemma SynParts(segments: seq<Segment>, y: nat, stream: seq<byte>)
    requires SynCapture(segments, y, stream) && segments[y].payload != []
    ensures var p := segments[y].payload;
            Assemble(segments) == p[1..] + Pick(segments, BaseOf(segments), stream, |p| - 1)
  {
    var early, late := SortedParts(segments, y, stream);
    AssembleParts(segments, early, late, segments[y].start, segments[y].payload, stream);
  }

  lemma PrefixTail<T>(p: seq<T>, s: seq<T>)
    requires p != [] && p <= s
    ensures p[1..] == s[1..|p|]
  {
  }

  /** What every such capture gives: the SYN's payload without its first byte,
      and then the bytes that are carried from the payload's last place on. */
  lemma SynAssembles(segments: seq<Segment>, y: nat, stream: seq<byte>)
    requires SynCapture(segments, y, stream) && segments[y].payload != []
    ensures var m := |segments[y].payload|;
            Assemble(segments) == stream[1..m] + Pick(segments, BaseOf(segments), stream, m - 1)
  {
    SynParts(segments, y, stream);
    PrefixTail(segments[y].payload, stream);
  }

  predicate AllEqual(s: seq<byte>) {
    forall i :: 0 < i < |s| ==> s[i] == s[i - 1]
  }

  /** A byte doubled and the first one missing: the same only if they agree. */
  lemma ShiftedSame(stream: seq<byte>, m: nat)
    requires 1 <= m <= |stream|
    ensures stream[1..m] + stream[m - 1..] == stream <==> AllEqual(stream[..m])
  {
    var t := stream[1..m] + stream[m - 1..];
    if AllEqual(stream[..m]) {
      forall i | 0 <= i < |stream|
        ensures t[i] == stream[i]
      {
        if i < m - 1 {
          assert stream[..m][i + 1] == stream[..m][i];
        }
      }
    }
    if t == stream {
      forall i | 0 < i < m
        ensures stream[..m][i] == stream[..m][i - 1]
      {
        assert t[i - 1] == stream[i];
      }
    }
  }

  /** `rest` is what is carried of the bytes from `m - 1` on. */
  lemma ShiftedExact(stream: seq<byte>, m: nat, rest: seq<byte>, all: bool)
    requires 1 <= m <= |stream|
    requires if all then rest == stream[m - 1..] else |rest| < |stream| - (m - 1)
    ensures stream[1..m] + rest == stream <==> all && AllEqual(stream[..m])
  {
    ShiftedSame(stream, m);
    assert |stream[1..m] + rest| == m - 1 + |rest|;
  }

  lemma PickLength(segs: seq<Segment>, base: nat, stream: seq<byte>, at: nat)
    requires at <= |stream|
    ensures var rest := Pick(segs, base, stream, at);
            if FullyCovered(segs, base + at, |stream| - at) then rest == stream[at..] else |rest| < |stream| - at
  {
    PickShorter(segs, base, stream, at);
    if FullyCovered(segs, base + at, |stream| - at) {
      PickRest(segs, base, stream, at);
    }
  }

  /** With a payload of `m` bytes on the SYN the stream comes back exactly when
      every byte from the payload's last one on is carried again and the `m`
      bytes are equal. */
  lemma SynPayloadExact(segments: seq<Segment>, y: nat, stream: seq<byte>)
    requires SynCapture(segments, y, stream) && segments[y].payload != []
    ensures var m := |segments[y].payload|;
            Assemble(segments) == stream <==>
            FullyCovered(segments, BaseOf(segments) + (m - 1), |stream| - (m - 1)) && AllEqual(stream[..m])
  {
    var m, base := |segments[y].payload|, BaseOf(segments);
    SynAssembles(segments, y, stream);
    PickLength(segments, base, stream, m - 1);
    ShiftedExact(stream, m, Pick(segments, base, stream, m - 1),
                 FullyCovered(segments, base + (m - 1), |stream| - (m - 1)));
  }

  /** Everything behind byte `at`, and that byte if it is carried. */
  lemma PickFrom(segs: seq<Segment>, base: nat, stream: seq<byte>, at: nat)
    requires at < |stream| && FullyCovered(segs, base + (at + 1), |stream| - (at + 1))
    ensures Pick(segs, base, stream, at) == if Covered(segs, base + at) then stream[at..] else stream[at + 1..]
  {
    PickRest(segs, base, stream, at + 1);
    assert stream[at..] == [stream[at]] + stream[at + 1..];
    assert [] + stream[at + 1..] == stream[at + 1..];
  }

  lemma SkipOne<T>(s: seq<T>, m: nat)
    requires 1 <= m <= |s|
    ensures s[1..m] + s[m..] == s[1..]
  {
  }

  /** A capture with every byte behind the SYN's payload: the first byte is lost,
      and the payload's last one is there twice if a segment carries it again. */
  lemma SynComplete(segments: seq<Segment>, y: nat, stream: seq<byte>)
    requires SynCapture(segments, y, stream) && segments[y].payload != []
    requires var m := |segments[y].payload|; FullyCovered(segments, BaseOf(segments) + m, |stream| - m)
    ensures var m := |segments[y].payload|;
            Assemble(segments) ==
            if Covered(segments, BaseOf(segments) + (m - 1)) then stream[1..m] + stream[m - 1..] else stream[1..]
  {
    var m := |segments[y].payload|;
    SynAssembles(segments, y, stream);
    PickFrom(segments, BaseOf(segments), stream, m - 1);
    SkipOne(stream, m);
  }

  /** A SYN without payload is no exception: what is carried comes back. */
  lemma SynWithoutPayload(segments: seq<Segment>, y: nat, stream: seq<byte>)
    requires SynCapture(segments, y, stream) && segments[y].payload == []
    ensures Assemble(segments) == Pick(segments, BaseOf(segments), stream, 0)
  {
    forall i | 0 <= i < |segments|
      ensures SliceOf(segments[i], BaseOf(segments), stream)
    {
      assert Early(segments[i], BaseOf(segments), []) || Late(segments[i], BaseOf(segments), stream);
    }
    AssembleIsCoverage(segments, stream);
  }

  // --------------------------------------------------- captures by their flags

  /** The flags of SYN and SYN-ACK. */
  predicate Opening(flags: byte) {
    flags == 2 || flags == 18
  }

  /** Those of ACK and FIN-ACK, with or without PSH. */
  predicate Running(flags: byte) {
    flags == 16 || flags == 17 || flags == 24 || flags == 25
  }

  /** Of the eight flags only the one worth 2 makes a SYN. */
  lemma SynFlag(s: Segment)
    ensures IsSyn(s) <==> s.flags % 4 == 2 || s.flags % 4 == 3
  {
  }

  lemma {:induction false} FirstSynIs(sorted: seq<Segment>, x: Segment)
    requires x in sorted && IsSyn(x) && forall z :: z in sorted && IsSyn(z) ==> z == x
    ensures FirstSyn(sorted) == Some(x)
  {
    if !IsSyn(sorted[0]) {
      assert sorted == [sorted[0]] + sorted[1..];
      FirstSynIs(sorted[1..], x);
    }
  }

  lemma {:induction false} NoFirstSyn(sorted: seq<Segment>)
    requires forall z :: z in sorted ==> !IsSyn(z)
    ensures FirstSyn(sorted) == None
  {
    if sorted != [] {
      NoFirstSyn(sorted[1..]);
    }
  }

  lemma OnlyOpening(segments: seq<Segment>, y: nat, z: Segment)
    requires y < |segments| && z in segments && IsSyn(z)
    requires forall i :: 0 <= i < |segments| && i != y ==> Running(segments[i].flags)
    ensures z == segments[y]
  {
    var i :| 0 <= i < |segments| && segments[i] == z;
  }

  lemma OpeningBase(segments: seq<Segment>, y: nat)
    requires y < |segments| && Opening(segments[y].flags)
    requires forall i :: 0 <= i < |segments| && i != y ==> Running(segments[i].flags)
    ensures BaseOf(segments) == segments[y].start + 1
  {
    SameElements(segments, Sort(segments), segments[y]);
    forall z | z in Sort(segments) && IsSyn(z)
      ensures z == segments[y]
    {
      SameElements(Sort(segments), segments, z);
      OnlyOpening(segments, y, z);
    }
    FirstSynIs(Sort(segments), segments[y]);
  }

  /** A connection from its SYN on, by the flags on the wire: the stream counts
      from one past the number of the one SYN or SYN-ACK. It comes out without
      the bytes nobody carries. */
  lemma OpeningAssembles(segments: seq<Segment>, y: nat, stream: seq<byte>)
    requires y < |segments| && Opening(segments[y].flags) && segments[y].payload == []
    requires forall i :: 0 <= i < |segments| && i != y ==> Running(segments[i].flags)
    requires AllSlices(segments, segments[y].start + 1, stream)
    ensures Assemble(segments) == Pick(segments, segments[y].start + 1, stream, 0)
  {
    OpeningBase(segments, y);
    AssembleIsCoverage(segments, stream);
  }

  lemma RunningIsNoSyn(segments: seq<Segment>, z: Segment)
    requires z in segments && forall i :: 0 <= i < |segments| ==> Running(segments[i].flags)
    ensures !IsSyn(z)
  {
    var i :| 0 <= i < |segments| && segments[i] == z;
    assert Running(z.flags);
  }

  lemma RunningNoSyn(segments: seq<Segment>)
    requires forall i :: 0 <= i < |segments| ==> Running(segments[i].flags)
    ensures FirstSyn(Sort(segments)) == None
  {
    forall z | z in Sort(segments)
      ensures !IsSyn(z)
    {
      SameElements(Sort(segments), segments, z);
      RunningIsNoSyn(segments, z);
    }
    NoFirstSyn(Sort(segments));
  }

  lemma FirstIsLowest(segments: seq<Segment>, y: nat)
    requires y < |segments| && forall i :: 0 <= i < |segments| ==> segments[y].start <= segments[i].start
    ensures Sort(segments) != [] && Sort(segments)[0].start == segments[y].start
  {
    var sorted := Sort(segments);
    SortOrdered(segments);
    SortKeepsLength(segments);
    SameElements(sorted, segments, sorted[0]);
    SameElements(segments, sorted, segments[y]);
    var j :| 0 <= j < |sorted| && sorted[j] == segments[y];
    assert sorted[0].start <= sorted[j].start;
  }

  /** A capture that began later: without a SYN the stream counts from the lowest
      number captured. */
  lemma RunningAssembles(segments: seq<Segment>, y: nat, stream: seq<byte>)
    requires forall i :: 0 <= i < |segments| ==> Running(segments[i].flags)
    requires y < |segments| && forall i :: 0 <= i < |segments| ==> segments[y].start <= segments[i].start
    requires AllSlices(segments, segments[y].start, stream)
    ensures Assemble(segments) == Pick(segments, segments[y].start, stream, 0)
  {
    RunningNoSyn(segments);
    FirstIsLowest(segments, y);
    AssembleIsCoverage(segments, stream);
  }
}
