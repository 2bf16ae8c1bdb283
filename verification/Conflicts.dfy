/** Captures whose segments contradict each other: which of them each byte of
    the result is taken from. */
module Conflicts {
  import opened Common
  import opened Reassembly

  /** Of the segments that carry the byte with this number, `w` is one with
      the lowest sequence number, and the first captured of those. */
  ghost predicate Decides(segs: seq<Segment>, n: nat, w: nat) {
    && w < |segs| && Carries(segs[w], n)
    && forall z :: 0 <= z < |segs| && Carries(segs[z], n) ==>
         segs[w].start < segs[z].start || (segs[w].start == segs[z].start && w <= z)
  }

  ghost function Decider(segs: seq<Segment>, n: nat): (r: Option<Segment>)
    ensures r.Some? ==> Carries(r.value, n)
  {
    if segs == [] then None
    else
      var r := Decider(segs[1..], n);
      if Carries(segs[0], n) && (r.None? || segs[0].start <= r.value.start) then Some(segs[0]) else r
  }

  lemma DecidesBehind(segs: seq<Segment>, n: nat, w: nat)
    requires segs != [] && Decides(segs[1..], n, w)
    requires !Carries(segs[0], n) || segs[1..][w].start < segs[0].start
    ensures Decides(segs, n, w + 1)
  {
    assert segs[w + 1] == segs[1..][w];
    forall z | 0 <= z < |segs| && Carries(segs[z], n)
      ensures segs[w + 1].start < segs[z].start || (segs[w + 1].start == segs[z].start && w + 1 <= z)
    {
      if z > 0 {
        assert segs[z] == segs[1..][z - 1];
      }
    }
  }

  lemma DecidesFirst(segs: seq<Segment>, n: nat)
    requires segs != [] && Carries(segs[0], n)
    requires forall z :: 0 <= z < |segs[1..]| && Carries(segs[1..][z], n) ==> segs[0].start <= segs[1..][z].start
    ensures Decides(segs, n, 0)
  {
    forall z | 0 < z < |segs| && Carries(segs[z], n)
      ensures segs[0].start <= segs[z].start
    {
      assert segs[z] == segs[1..][z - 1];
    }
  }

  /** A byte that is carried at all is decided by exactly one segment. */
  lemma {:induction false} DeciderDecides(segs: seq<Segment>, n: nat) returns (w: nat)
    ensures Covered(segs, n) <==> Decider(segs, n).Some?
    ensures Covered(segs, n) ==> Decides(segs, n, w) && Decider(segs, n) == Some(segs[w])
    ensures forall z :: Decides(segs, n, z) ==> z == w
  {
    w := 0;
    if segs != [] {
      var v := DeciderDecides(segs[1..], n);
      CoveredCons(segs, n);
      var r := Decider(segs[1..], n);
      if Carries(segs[0], n) && (r.None? || segs[0].start <= r.value.start) {
        DecidesFirst(segs, n);
      } else if r.Some? {
        DecidesBehind(segs, n, v);
        w := v + 1;
      }
    }
  }

  // -------------------------------------------------------------- the sort

  lemma {:induction false} DeciderIn(segs: seq<Segment>, n: nat)
    ensures Decider(segs, n).Some? ==> Decider(segs, n).value in segs
  {
    if segs != [] {
      DeciderIn(segs[1..], n);
    }
  }

  /** In sorted segments the first that carries a byte decides it. */
  lemma SortedDecider(segs: seq<Segment>, n: nat)
    requires segs != [] && Ordered(segs)
    ensures Decider(segs, n) == if Carries(segs[0], n) then Some(segs[0]) else Decider(segs[1..], n)
  {
    DeciderIn(segs[1..], n);
  }

  lemma {:induction false} InsertDecider(s: Segment, sorted: seq<Segment>, n: nat)
    requires Ordered(sorted)
    ensures Decider(Insert(s, sorted), n) == Decider([s] + sorted, n)
  {
    assert ([s] + sorted)[1..] == sorted;
    if sorted != [] && s.start > sorted[0].start {
      var x, rest := sorted[0], sorted[1..];
      InsertDecider(s, rest, n);
      InsertOrdered(s, sorted);
      SortedDecider(sorted, n);
      assert ([s] + rest)[1..] == rest;
      var r := Insert(s, sorted);
      assert r == [x] + Insert(s, rest) && r[1..] == Insert(s, rest);
      SortedDecider(r, n);
    }
  }

  /** Sorting leaves every byte to the same segment. */
  lemma {:induction false} SortDecider(segments: seq<Segment>, n: nat)
    ensures Decider(Sort(segments), n) == Decider(segments, n)
  {
    if segments != [] {
      SortDecider(segments[1..], n);
      SortOrdered(segments[1..]);
      var rest := Sort(segments[1..]);
      InsertDecider(segments[0], rest, n);
      assert ([segments[0]] + rest)[1..] == rest;
    }
  }

  // ---------------------------------------------------------- what comes out

  /** The byte as its segment has it, or nothing if no segment carries it. */
  ghost function Said(segs: seq<Segment>, n: nat): (b: seq<byte>) {
    match Decider(segs, n)
    case Some(s) => [s.payload[n - s.start]]
    case None => []
  }

  ghost function Heard(segs: seq<Segment>, from: nat, end: nat): (bytes: seq<byte>)
    requires from <= end
    decreases end - from
  {
    if from == end then [] else Said(segs, from) + Heard(segs, from + 1, end)
  }

  lemma {:induction false} HeardSame(a: seq<Segment>, b: seq<Segment>, from: nat, end: nat)
    requires from <= end && forall n :: from <= n < end ==> Decider(a, n) == Decider(b, n)
    ensures Heard(a, from, end) == Heard(b, from, end)
    decreases end - from
  {
    if from < end {
      HeardSame(a, b, from + 1, end);
    }
  }

  lemma {:induction false} HeardGap(segs: seq<Segment>, from: nat, mid: nat, end: nat)
    requires from <= mid <= end && forall n :: from <= n < mid ==> Decider(segs, n) == None
    ensures Heard(segs, from, end) == Heard(segs, mid, end)
    decreases mid - from
  {
    if from < mid {
      HeardGap(segs, from + 1, mid, end);
    }
  }

  lemma {:induction false} HeardRun(segs: seq<Segment>, s: Segment, from: nat, end: nat)
    requires s.start <= from <= EndOf(s) <= end
    requires forall n :: from <= n < EndOf(s) ==> Decider(segs, n) == Some(s)
    ensures Heard(segs, from, end) == s.payload[from - s.start..] + Heard(segs, EndOf(s), end)
    decreases EndOf(s) - from
  {
    var k := from - s.start;
    if from < EndOf(s) {
      HeardRun(segs, s, from + 1, end);
      assert s.payload[k..] == [s.payload[k]] + s.payload[k + 1..];
      Associate([s.payload[k]], s.payload[k + 1..], Heard(segs, EndOf(s), end));
    } else {
      assert s.payload[k..] == [];
    }
  }

  ghost predicate EndBy(segs: seq<Segment>, end: nat) {
    forall i :: 0 <= i < |segs| ==> EndOf(segs[i]) <= end
  }

  lemma NothingBefore(segs: seq<Segment>, n: nat)
    requires Ordered(segs) && (segs == [] || n < segs[0].start)
    ensures Decider(segs, n) == None
  {
    UncoveredBefore(segs, n);
    var _ := DeciderDecides(segs, n);
  }

  /** Past the end of the first segment the others decide. */
  lemma HeardPast(segs: seq<Segment>, from: nat, end: nat)
    requires segs != [] && Ordered(segs) && EndOf(segs[0]) <= from <= end
    ensures Heard(segs, from, end) == Heard(segs[1..], from, end)
  {
    forall n | from <= n < end
      ensures Decider(segs, n) == Decider(segs[1..], n)
    {
      SortedDecider(segs, n);
    }
    HeardSame(segs, segs[1..], from, end);
  }

  lemma HeardFirst(segs: seq<Segment>, next: nat, end: nat)
    requires segs != [] && Ordered(segs) && next < EndOf(segs[0]) <= end && segs[0].payload != []
    ensures Heard(segs, next, end) == Adds(segs[0], next) + Heard(segs, EndOf(segs[0]), end)
  {
    var s := segs[0];
    var from := if s.start >= next then s.start else next;
    forall n | next <= n < from
      ensures Decider(segs, n) == None
    {
      NothingBefore(segs, n);
    }
    HeardGap(segs, next, from, end);
    forall n | from <= n < EndOf(s)
      ensures Decider(segs, n) == Some(s)
    {
      SortedDecider(segs, n);
    }
    HeardRun(segs, s, from, end);
    assert s.payload[0..] == s.payload;
  }

  lemma {:induction false} MergeHears(segs: seq<Segment>, next: nat, end: nat)
    requires Ordered(segs) && EndBy(segs, end) && next <= end
    ensures Merge(segs, next) == Heard(segs, next, end)
  {
    if segs == [] {
      HeardGap(segs, next, end, end);
    } else {
      var s := segs[0];
      MergeHears(segs[1..], NextAfter(s, next), end);
      if s.payload == [] || EndOf(s) <= next {
        if EndOf(s) <= next {
          HeardPast(segs, next, end);
        } else {
          HeardEmpty(segs, next, end);
        }
        assert Adds(s, next) == [];
      } else {
        HeardFirst(segs, next, end);
        HeardPast(segs, EndOf(s), end);
      }
    }
  }

  lemma HeardEmpty(segs: seq<Segment>, from: nat, end: nat)
    requires segs != [] && segs[0].payload == [] && from <= end
    ensures Heard(segs, from, end) == Heard(segs[1..], from, end)
  {
    HeardSame(segs, segs[1..], from, end);
  }

  /** Every capture, contradictory or not, of one stream or several: from the
      base on, the result is byte for byte what the deciding segment says, and
      bytes that nobody carries are left out. */
  lemma AssembleHears(segments: seq<Segment>, end: nat)
    requires EndBy(segments, end) && BaseOf(segments) <= end
    ensures Assemble(segments) == Heard(segments, BaseOf(segments), end)
  {
    var sorted := Sort(segments);
    SortOrdered(segments);
    forall i | 0 <= i < |sorted|
      ensures EndOf(sorted[i]) <= end
    {
      SameElements(sorted, segments, sorted[i]);
    }
    MergeHears(sorted, BaseOf(segments), end);
    forall n: nat
      ensures Decider(sorted, n) == Decider(segments, n)
    {
      SortDecider(segments, n);
    }
    HeardSame(sorted, segments, BaseOf(segments), end);
  }
}
