/** The cumulative-subtraction sampler: which roll selects which row, and how
    many rolls select each. */
module WeightedPick {
  import opened Common

  function Sum(ws: seq<nat>): (s: nat) {
    if ws == [] then 0 else Sum(ws[..|ws| - 1]) + ws[|ws| - 1]
  }

  /** Walks the weights from the front, subtracting each one the roll is
      above; without a hit the fallback is taken. */
  function Pick(ws: seq<nat>, roll: int, fallback: nat): (i: nat) {
    PickFrom(ws, 0, roll, fallback)
  }

  function PickFrom(ws: seq<nat>, i: nat, roll: int, fallback: nat): (r: nat)
    requires i <= |ws|
    decreases |ws| - i
  {
    if i == |ws| then fallback
    else if roll <= ws[i] then i
    else PickFrom(ws, i + 1, roll - ws[i], fallback)
  }

  /** The selection loop. */
  method Select(ws: seq<nat>, start: int, fallback: nat) returns (r: nat)
    ensures r == Pick(ws, start, fallback)
  {
    var roll := start;
    r := fallback;
    for i := 0 to |ws|
      invariant r == fallback && Pick(ws, start, fallback) == PickFrom(ws, i, roll, fallback)
    {
      if roll <= ws[i] {
        return i;
      }
      roll := roll - ws[i];
    }
  }

  lemma SumStep(ws: seq<nat>, i: nat)
    requires i < |ws|
    ensures Sum(ws[..i + 1]) == Sum(ws[..i]) + ws[i]
  {
    assert ws[..i + 1][..i] == ws[..i];
  }

  lemma {:induction false} SumMonotone(ws: seq<nat>, i: nat, j: nat)
    requires i <= j <= |ws|
    ensures Sum(ws[..i]) <= Sum(ws[..j])
    decreases j
  {
    if i < j {
      SumMonotone(ws, i, j - 1);
      SumStep(ws, j - 1);
    }
  }

  lemma {:induction false} PickFromInterval(ws: seq<nat>, i: nat, roll: int, fallback: nat, k: nat)
    requires i <= k < |ws| && roll >= 1
    requires Sum(ws[..k]) - Sum(ws[..i]) < roll <= Sum(ws[..k + 1]) - Sum(ws[..i])
    ensures PickFrom(ws, i, roll, fallback) == k
    decreases k - i
  {
    SumStep(ws, i);
    if i < k {
      SumMonotone(ws, i + 1, k);
      PickFromInterval(ws, i + 1, roll - ws[i], fallback, k);
    } else {
      SumStep(ws, k);
    }
  }

  lemma {:induction false} RowOfRoll(ws: seq<nat>, roll: int) returns (k: nat)
    requires 1 <= roll <= Sum(ws)
    ensures k < |ws| && Sum(ws[..k]) < roll <= Sum(ws[..k + 1])
  {
    k := 0;
    assert ws[..0] == [] && ws[..|ws|] == ws;
    while roll > Sum(ws[..k + 1])
      invariant k < |ws| && Sum(ws[..k]) < roll
      decreases |ws| - k
    {
      assert k + 1 < |ws|;
      k := k + 1;
    }
  }

  /** Every roll up to the total selects one row: the row whose stretch of the
      running sums the roll falls in. A row of weight 0 is never selected, and
      the fallback is never needed. */
  lemma PickExact(ws: seq<nat>, roll: int, fallback: nat, k: nat)
    requires 1 <= roll <= Sum(ws) && k < |ws|
    ensures Pick(ws, roll, fallback) < |ws|
    ensures Pick(ws, roll, fallback) == k <==> Sum(ws[..k]) < roll <= Sum(ws[..k + 1])
    ensures Pick(ws, roll, fallback) == k ==> ws[k] > 0
  {
    assert ws[..0] == [];
    var j := RowOfRoll(ws, roll);
    PickFromInterval(ws, 0, roll, fallback, j);
    SumStep(ws, j);
    if Sum(ws[..k]) < roll <= Sum(ws[..k + 1]) {
      PickFromInterval(ws, 0, roll, fallback, k);
    }
  }

  /** The rolls from 1 to `top` that select row `k`. */
  ghost function Rolls(ws: seq<nat>, top: nat, fallback: nat, k: nat): (rolls: set<int>) {
    set r | 1 <= r <= top && Pick(ws, r, fallback) == k
  }

  /** The whole numbers above `lo` up to `hi`. */
  ghost function Interval(lo: int, hi: int): (s: set<int>)
    ensures |s| == if lo < hi then hi - lo else 0
    ensures forall r :: r in s <==> lo < r <= hi
    decreases hi - lo
  {
    if lo < hi then Interval(lo, hi - 1) + {hi} else {}
  }

  function Min(a: int, b: int): (m: int) {
    if a < b then a else b
  }

  /** The exact count, for any upper end of the rolls: the part of the row's
      stretch that the rolls reach. With the full total that is the weight. */
  lemma RollCount(ws: seq<nat>, top: nat, fallback: nat, k: nat)
    requires k < |ws| && top <= Sum(ws)
    ensures |Rolls(ws, top, fallback, k)| == Min(top, Sum(ws[..k + 1])) - Min(top, Sum(ws[..k]))
    ensures top == Sum(ws) ==> |Rolls(ws, top, fallback, k)| == ws[k]
  {
    var lo, hi := Min(top, Sum(ws[..k])), Min(top, Sum(ws[..k + 1]));
    SumStep(ws, k);
    SumMonotone(ws, k + 1, |ws|);
    assert ws[..|ws|] == ws;
    forall r
      ensures r in Rolls(ws, top, fallback, k) <==> r in Interval(lo, hi)
    {
      if 1 <= r <= top {
        PickExact(ws, r, fallback, k);
      }
    }
    assert Rolls(ws, top, fallback, k) == Interval(lo, hi);
  }

  // ------------------------------------------- counting draws, not rolls

  /** The roll a raw draw gives: `1 + x % top`. */
  function RollOf(x: nat, top: nat): (r: nat)
    requires top > 0
    ensures 1 <= r <= top
  {
    1 + x % top
  }

  /** How many of the draws below `n` select row `k`. */
  function Hits(ws: seq<nat>, top: nat, fallback: nat, k: nat, n: nat): (h: nat)
    requires top > 0
  {
    if n == 0 then 0
    else Hits(ws, top, fallback, k, n - 1) + if Pick(ws, RollOf(n - 1, top), fallback) == k then 1 else 0
  }

  /** How far `x` reaches into the stretch from `lo` to `hi`. */
  function Reach(x: int, lo: int, hi: int): (r: int) {
    Min(x, hi) - Min(x, lo)
  }

  lemma NextDraw(n: nat, top: nat)
    requires top > 0
    ensures if n % top == top - 1 then (n + 1) / top == n / top + 1 && (n + 1) % top == 0
            else (n + 1) / top == n / top && (n + 1) % top == n % top + 1
  {
    var q, r := n / top, n % top;
    assert n + 1 == top * q + (r + 1);
    if r == top - 1 {
      assert top * q + top == top * (q + 1);
      Quotient(n + 1, top, q + 1, 0);
    } else {
      Quotient(n + 1, top, q, r + 1);
    }
  }

  /** A draw selects the row when it takes the reach one further. */
  lemma HitIsReach(ws: seq<nat>, top: nat, fallback: nat, k: nat, x: nat)
    requires k < |ws| && 0 < top <= Sum(ws)
    ensures var lo, hi := Sum(ws[..k]), Sum(ws[..k + 1]);
            (if Pick(ws, RollOf(x, top), fallback) == k then 1 else 0) ==
            Reach(x % top + 1, lo, hi) - Reach(x % top, lo, hi)
  {
    SumStep(ws, k);
    PickExact(ws, RollOf(x, top), fallback, k);
  }

  lemma RoundStep(n: nat, top: nat, lo: nat, hi: nat)
    requires top > 0
    ensures ((n + 1) / top) * Reach(top, lo, hi) + Reach((n + 1) % top, lo, hi) ==
            (n / top) * Reach(top, lo, hi) + Reach(n % top + 1, lo, hi)
  {
    NextDraw(n, top);
    var q, w := n / top, Reach(top, lo, hi);
    assert (q + 1) * w == q * w + w;
  }

  /** The exact count over the raw draws: every whole round of `top` draws
      gives the row its stretch once, and the last, partial round gives it
      what it reaches. This is the whole of the modulo bias. */
  lemma {:induction false} DrawCount(ws: seq<nat>, top: nat, fallback: nat, k: nat, n: nat)
    requires k < |ws| && 0 < top <= Sum(ws)
    ensures var lo, hi := Sum(ws[..k]), Sum(ws[..k + 1]);
            Hits(ws, top, fallback, k, n) == (n / top) * Reach(top, lo, hi) + Reach(n % top, lo, hi)
    decreases n
  {
    if n == 0 {
      Quotient(0, top, 0, 0);
    } else {
      DrawCount(ws, top, fallback, k, n - 1);
      HitIsReach(ws, top, fallback, k, n - 1);
      RoundStep(n - 1, top, Sum(ws[..k]), Sum(ws[..k + 1]));
    }
  }

  /** The same when the rolls run up to the full total: the row's share is its
      weight, in the rolls and in every whole round of the draws. */
  lemma FullShare(ws: seq<nat>, fallback: nat, k: nat, n: nat)
    requires k < |ws| && 0 < Sum(ws)
    ensures |Rolls(ws, Sum(ws), fallback, k)| == ws[k]
    ensures Hits(ws, Sum(ws), fallback, k, n) ==
            (n / Sum(ws)) * ws[k] + Reach(n % Sum(ws), Sum(ws[..k]), Sum(ws[..k]) + ws[k])
  {
    SumStep(ws, k);
    SumMonotone(ws, k + 1, |ws|);
    assert ws[..|ws|] == ws;
    DrawCount(ws, Sum(ws), fallback, k, n);
    RollCount(ws, Sum(ws), fallback, k);
  }
}
