/** What every run of the attribute roll leaves in the seven slots. */
module AttributeLayout {
  import opened Common
  import opened Attributes
  import WeightedPick

  /** No gaps and no repeats, in the normal slots and in the rare ones. */
  predicate Tidy(s: Slots) {
    TidyPart(s, 0, NORM_ATTR_NUM) && TidyPart(s, NORM_ATTR_NUM, SLOT_NUM)
  }

  predicate TidyPart(s: Slots, lo: nat, hi: nat)
    requires lo <= hi <= SLOT_NUM
  {
    var n := Occupied(s, lo, hi);
    (forall i :: lo + n <= i < hi ==> s[i].0 == 0) &&
    (forall i, j :: lo <= i < j < lo + n ==> s[i].0 != s[j].0)
  }

  /** The pair is what `row` gives for this item set at the rolled level: the
      value of that level if the row's cap for the set allows it and of the cap
      otherwise, not zero, narrowed to sixteen bits. */
  predicate Gives(row: AttrRow, set_: nat, level: nat, pair: (int, int))
    requires Shaped(row) && set_ < SET_NUM
  {
    var cap := row.maxLevel[set_];
    var l := if level <= cap then level else cap;
    && 1 <= level <= 5 && 1 <= cap
    && row.values[l - 1] != 0
    && pair.0 == row.apply && -0x8000 <= pair.1 < 0x8000 && (pair.1 - row.values[l - 1]) % 0x1_0000 == 0
  }

  lemma ValueGives(row: AttrRow, set_: nat, level: nat)
    requires Shaped(row) && set_ < SET_NUM && row.maxLevel[set_] > 0 && 1 <= level <= MAX_LEVEL
    requires ValueAt(row, set_, level) != 0
    ensures Gives(row, set_, level, (row.apply, I16(ValueAt(row, set_, level))))
  {
    Narrowed(ValueAt(row, set_, level));
  }

  lemma Narrowed(v: int)
    ensures (I16(v) - v) % 0x1_0000 == 0
  {
    var q := (v + 0x8000) / 0x1_0000;
    assert I16(v) - v == 0x1_0000 * -q;
  }

  /** The pair comes at this level from a row of the table that is enabled for
      the item set; a drawn row of the normal table also has a positive weight. */
  ghost predicate FromAt(table: seq<AttrRow>, set_: nat, rare: bool, level: nat, pair: (int, int))
    requires AllShaped(table) && set_ < SET_NUM
  {
    exists i: nat :: i < |table| && Gives(table[i], set_, level, pair) && (rare || table[i].prob > 0)
  }

  /** At some level; rare attributes are rolled at level five. */
  ghost predicate From(table: seq<AttrRow>, set_: nat, rare: bool, pair: (int, int))
    requires AllShaped(table) && set_ < SET_NUM
  {
    exists level: nat :: FromAt(table, set_, rare, level, pair) && (rare ==> level == 5)
  }

  /** `t` is `s` with at most one attribute more, in the first free normal
      slot, from the table. */
  ghost predicate OneMore(table: seq<AttrRow>, set_: nat, s: Slots, t: Slots)
    requires AllShaped(table) && set_ < SET_NUM
  {
    t == s ||
    (var n := CountNorm(s);
     n < NORM_ATTR_NUM && t == s[n := t[n]] && t[n].0 != 0 &&
     !Has(s, 0, NORM_ATTR_NUM, t[n].0) && From(table, set_, false, t[n]))
  }

  lemma {:induction false} OccupiedIs(s: Slots, lo: nat, hi: nat, n: nat)
    requires lo <= hi <= SLOT_NUM && lo + n <= hi
    requires forall i :: lo <= i < lo + n ==> s[i].0 != 0
    requires lo + n < hi ==> s[lo + n].0 == 0
    ensures Occupied(s, lo, hi) == n
    decreases n
  {
    if n > 0 {
      OccupiedIs(s, lo + 1, hi, n - 1);
    }
  }

  /** Writing a new apply index into the first free slot of a part keeps that
      part tidy and one longer. */
  lemma WriteKeepsPart(s: Slots, lo: nat, hi: nat, pair: (int, int))
    requires lo <= hi <= SLOT_NUM && TidyPart(s, lo, hi) && lo + Occupied(s, lo, hi) < hi
    requires pair.0 != 0 && !Has(s, lo, hi, pair.0)
    ensures TidyPart(s[lo + Occupied(s, lo, hi) := pair], lo, hi)
    ensures Occupied(s[lo + Occupied(s, lo, hi) := pair], lo, hi) == Occupied(s, lo, hi) + 1
  {
    var n := Occupied(s, lo, hi);
    OccupiedIs(s[lo + n := pair], lo, hi, n + 1);
  }

  /** Writing outside a part leaves it alone. */
  lemma WriteOutside(s: Slots, lo: nat, hi: nat, at: nat, pair: (int, int))
    requires lo <= hi <= SLOT_NUM && at < SLOT_NUM && (at < lo || at >= hi)
    ensures Occupied(s[at := pair], lo, hi) == Occupied(s, lo, hi)
    ensures TidyPart(s[at := pair], lo, hi) == TidyPart(s, lo, hi)
  {
    var t := s[at := pair];
    OccupiedIs(t, lo, hi, Occupied(s, lo, hi));
    assert forall i :: lo <= i < hi ==> t[i] == s[i];
    if TidyPart(t, lo, hi) {
      assert forall i, j :: lo <= i < j < lo + Occupied(s, lo, hi) ==> t[i].0 != t[j].0;
    }
  }

  /** The row chosen for the normal slots: usable and of positive weight. */
  lemma ChosenRow(table: seq<AttrRow>, set_: nat, slots: Slots, rare: bool, roll: nat) returns (i: nat)
    requires AllShaped(table) && set_ < SET_NUM
    requires var ws := Weights(table, Available(table, set_, slots, rare, |table|)); 1 <= roll <= Total(ws)
    ensures var avail := Available(table, set_, slots, rare, |table|);
            WeightedPick.Pick(Weights(table, avail), roll, 0) < |avail| &&
            i == avail[WeightedPick.Pick(Weights(table, avail), roll, 0)]
    ensures i < |table| && Usable(table[i], set_, slots, rare) && table[i].prob > 0
  {
    var avail := Available(table, set_, slots, rare, |table|);
    var ws := Weights(table, avail);
    WeightedPickIsRow(ws, roll);
    var k := WeightedPick.Pick(ws, roll, 0);
    WeightedPick.PickExact(ws, roll, 0, k);
    i := avail[k];
  }

  /** One normal write with a free normal slot: at most one attribute more,
      whatever the draws. */
  lemma PutIsOneMore(rng: Stream, drawn: nat, table: seq<AttrRow>, set_: nat, slots: Slots, level: nat)
    requires AllShaped(table) && set_ < SET_NUM && 1 <= level <= MAX_LEVEL
    requires CountNorm(slots) < NORM_ATTR_NUM
    ensures var r := PutLevel(rng, drawn, table, set_, slots, level, false);
            && OneMore(table, set_, slots, r.slots) && (r.ok <==> r.slots != slots)
            && (r.ok ==> FromAt(table, set_, false, level, r.slots[CountNorm(slots)]))
  {
    var n := CountNorm(slots);
    assert Has(slots, 0, NORM_ATTR_NUM, 0) by { assert slots[n].0 == 0; }
    var r := PutLevel(rng, drawn, table, set_, slots, level, false);
    if r.ok {
      var ws := Weights(table, Available(table, set_, slots, false, |table|));
      var i := ChosenRow(table, set_, slots, false, InRange(rng(drawn), 1, Total(ws)));
      ValueGives(table[i], set_, level);
      assert FromAt(table, set_, false, level, r.slots[n]);
    }
  }

  /** With every normal slot taken the same write lands in the first rare
      slot, which is why the callers' bound of three matters. */
  lemma FullNormalSpills(rng: Stream, drawn: nat, table: seq<AttrRow>, set_: nat, slots: Slots, level: nat)
    requires AllShaped(table) && set_ < SET_NUM && 1 <= level <= MAX_LEVEL
    requires CountNorm(slots) == NORM_ATTR_NUM
    ensures var r := PutLevel(rng, drawn, table, set_, slots, level, false);
            if r.ok then r.slots == slots[NORM_ATTR_NUM := r.slots[NORM_ATTR_NUM]] &&
                         From(table, set_, false, r.slots[NORM_ATTR_NUM])
            else r.slots == slots
  {
    var r := PutLevel(rng, drawn, table, set_, slots, level, false);
    if r.ok {
      var ws := Weights(table, Available(table, set_, slots, false, |table|));
      var i := ChosenRow(table, set_, slots, false, InRange(rng(drawn), 1, Total(ws)));
      ValueGives(table[i], set_, level);
      assert FromAt(table, set_, false, level, r.slots[NORM_ATTR_NUM]);
    }
  }

  lemma OneRowSpills(rng: Stream, row: AttrRow, slots: Slots)
    requires Shaped(row) && row.prob == 1 && row.apply == 6 && row.values[0] == 10
    requires Usable(row, 0, slots, false) && CountNorm(slots) == NORM_ATTR_NUM
    ensures PutLevel(rng, 0, [row], 0, slots, 1, false).slots[5] == (6, 10)
  {
    assert Available([row], 0, slots, false, 0) == [];
    assert Available([row], 0, slots, false, 1) == [0];
    var ws := Weights([row], [0]);
    assert ws == [1] && ws[..0] == [];
    assert WeightedPick.Sum(ws) == 1;
    WeightedPickIsRow(ws, 1);
  }

  /** The rare slot of an item with five attributes can be overwritten. */
  lemma SpillExample(rng: Stream)
    ensures exists table: seq<AttrRow>, slots: Slots ::
              AllShaped(table) && Tidy(slots) && CountNorm(slots) == NORM_ATTR_NUM && slots[5] == (9, 1) &&
              PutLevel(rng, 0, table, 0, slots, 1, false).slots[5] == (6, 10)
  {
    var row := AttrRow(6, 1, [10, 10, 10, 10, 10], [1, 1, 1, 1, 1, 1, 1, 1]);
    var slots: Slots := [(1, 1), (2, 1), (3, 1), (4, 1), (5, 1), (9, 1), (0, 0)];
    OccupiedIs(slots, 0, 5, 5);
    OccupiedIs(slots, 5, 7, 1);
    OneRowSpills(rng, row, slots);
    assert AllShaped([row]);
  }

  lemma LevelInRange(rng: Stream, drawn: nat, percent: seq<nat>)
    requires |percent| == MAX_LEVEL
    ensures 1 <= WeightedPick.Pick(percent, InRange(rng(drawn), 1, 100), MAX_LEVEL - 1) + 1 <= MAX_LEVEL
  {
    PickInRange(percent, 0, InRange(rng(drawn), 1, 100), MAX_LEVEL - 1);
  }

  lemma {:induction false} PickInRange(ws: seq<nat>, i: nat, roll: int, fallback: nat)
    requires i <= |ws| && fallback < |ws|
    ensures WeightedPick.PickFrom(ws, i, roll, fallback) < |ws|
    decreases |ws| - i
  {
    if i < |ws| && roll > ws[i] {
      PickInRange(ws, i + 1, roll - ws[i], fallback);
    }
  }

  /** At most `n` attributes more than before, all in normal slots, all from
      the table, and everything that was there still there. */
  ghost predicate Grown(table: seq<AttrRow>, set_: nat, s: Slots, t: Slots, n: nat)
    requires AllShaped(table) && set_ < SET_NUM
  {
    Tidy(t) && CountNorm(s) <= CountNorm(t) <= CountNorm(s) + n && CountRare(t) == CountRare(s) &&
    t[NORM_ATTR_NUM..] == s[NORM_ATTR_NUM..] && t[..CountNorm(s)] == s[..CountNorm(s)] &&
    forall i :: CountNorm(s) <= i < NORM_ATTR_NUM ==> t[i] == s[i] || From(table, set_, false, t[i])
  }

  lemma OneMoreGrows(table: seq<AttrRow>, set_: nat, s: Slots, t: Slots, u: Slots, n: nat)
    requires AllShaped(table) && set_ < SET_NUM && Tidy(s)
    requires Grown(table, set_, s, t, n) && OneMore(table, set_, t, u)
    ensures Grown(table, set_, s, u, n + 1)
  {
    if u != t {
      var k := CountNorm(t);
      WriteKeepsPart(t, 0, NORM_ATTR_NUM, u[k]);
      WriteOutside(t, NORM_ATTR_NUM, SLOT_NUM, k, u[k]);
    }
  }

  /** The three draws of `alter_to_magic_item`. */
  lemma MagicGrows(rng: Stream, drawn: nat, table: seq<AttrRow>, bType: int, bSubType: int, slots: Slots)
    requires AllShaped(table) && Tidy(slots) && CountNorm(slots) + 3 <= NORM_ATTR_NUM
    ensures var r := Magic(rng, drawn, table, bType, bSubType, slots);
            match SetIndex(bType, bSubType)
            case None => r.slots == slots
            case Some(set_) => Grown(table, set_, slots, r.slots, 3)
  {
    var index := SetIndex(bType, bSubType);
    if index.Some? {
      var set_, c := index.value, Chances(bType, bSubType);
      LevelInRange(rng, drawn, PERCENT_HIGH);
      PutIsOneMore(rng, drawn + 1, table, set_, slots,
                   WeightedPick.Pick(PERCENT_HIGH, InRange(rng(drawn), 1, 100), MAX_LEVEL - 1) + 1);
      var a := Put(rng, drawn, table, set_, slots, PERCENT_HIGH);
      OneMoreGrows(table, set_, slots, slots, a.slots, 0);
      MaybeIsOneMore(rng, a.drawn, c.0, table, set_, a.slots);
      var b := PutMaybe(rng, a.drawn, c.0, table, set_, a.slots);
      OneMoreGrows(table, set_, slots, a.slots, b.slots, 1);
      MaybeIsOneMore(rng, b.drawn, c.1, table, set_, b.slots);
      OneMoreGrows(table, set_, slots, b.slots, PutMaybe(rng, b.drawn, c.1, table, set_, b.slots).slots, 2);
    }
  }

  lemma MaybeIsOneMore(rng: Stream, drawn: nat, chance: nat, table: seq<AttrRow>, set_: nat, slots: Slots)
    requires AllShaped(table) && set_ < SET_NUM && CountNorm(slots) < NORM_ATTR_NUM
    ensures OneMore(table, set_, slots, PutMaybe(rng, drawn, chance, table, set_, slots).slots)
  {
    LevelInRange(rng, drawn + 1, PERCENT_LOW);
    PutIsOneMore(rng, drawn + 2, table, set_, slots,
                 WeightedPick.Pick(PERCENT_LOW, InRange(rng(drawn + 1), 1, 100), MAX_LEVEL - 1) + 1);
  }

  /** `t` is `s` with at most one attribute more, in the first free rare slot,
      from the table. */
  ghost predicate RareMore(table: seq<AttrRow>, set_: nat, s: Slots, t: Slots)
    requires AllShaped(table) && set_ < SET_NUM
  {
    t == s ||
    (var at := NORM_ATTR_NUM + CountRare(s);
     at < SLOT_NUM && t == s[at := t[at]] && Tidy(t) && CountRare(t) == CountRare(s) + 1 &&
     CountNorm(t) == CountNorm(s) && From(table, set_, true, t[at]))
  }

  lemma RareGrows(rng: Stream, drawn: nat, table: seq<AttrRow>, bType: int, bSubType: int, slots: Slots)
    requires AllShaped(table) && Tidy(slots)
    ensures var r := AddRare(rng, drawn, table, bType, bSubType, slots);
            match SetIndex(bType, bSubType)
            case None => r.slots == slots
            case Some(set_) => RareMore(table, set_, slots, r.slots)
  {
    var r := AddRare(rng, drawn, table, bType, bSubType, slots);
    if r.ok {
      var set_, at := SetIndex(bType, bSubType).value, NORM_ATTR_NUM + CountRare(slots);
      var avail := RareAvailable(table, set_, slots, |table|);
      var i := avail[InRange(rng(drawn), 0, |avail| - 1)];
      assert RareUsable(table[i], set_, slots);
      ValueGives(table[i], set_, MAX_LEVEL);
      assert FromAt(table, set_, true, 5, r.slots[at]);
      WriteKeepsPart(slots, NORM_ATTR_NUM, SLOT_NUM, r.slots[at]);
      WriteOutside(slots, 0, NORM_ATTR_NUM, at, r.slots[at]);
    }
  }

  /** What a roll may do to the slots `s` of an item of the set: tidy slots, at
      most three normal attributes and one rare one added, everything that was
      there kept, everything new from the right table. */
  ghost predicate Laid(normal: seq<AttrRow>, rare: seq<AttrRow>, set_: nat, s: Slots, t: Slots)
    requires AllShaped(normal) && AllShaped(rare) && set_ < SET_NUM
  {
    Tidy(t) &&
    CountNorm(s) <= CountNorm(t) <= CountNorm(s) + 3 && CountRare(s) <= CountRare(t) <= CountRare(s) + 1 &&
    (forall i :: 0 <= i < SLOT_NUM && s[i].0 != 0 ==> t[i] == s[i]) &&
    (forall i :: 0 <= i < NORM_ATTR_NUM && t[i] != s[i] ==> From(normal, set_, false, t[i])) &&
    (forall i :: NORM_ATTR_NUM <= i < SLOT_NUM && t[i] != s[i] ==> From(rare, set_, true, t[i]))
  }

  lemma BothParts(normal: seq<AttrRow>, rare: seq<AttrRow>, set_: nat, s: Slots, m: Slots, t: Slots)
    requires AllShaped(normal) && AllShaped(rare) && set_ < SET_NUM && Tidy(s)
    requires Grown(normal, set_, s, m, 3) && RareMore(rare, set_, m, t)
    ensures Laid(normal, rare, set_, s, t)
  {
    assert forall i :: NORM_ATTR_NUM <= i < SLOT_NUM ==> m[i] == m[NORM_ATTR_NUM..][i - NORM_ATTR_NUM] == s[i];
    assert forall i :: 0 <= i < CountNorm(s) ==> m[i] == m[..CountNorm(s)][i] == s[i];
    assert forall i :: 0 <= i < NORM_ATTR_NUM ==> t[i] == m[i];
  }

  /** Main result, for every item, every pair of tables and every random
      stream, over any tidy slots (the empty ones among them): only an item
      that has a set and no normal attribute yet is touched, and then as
      `Laid` says. So a new item ends with at most three normal attributes and
      one rare one, no gaps, no repeats, and nothing written across the border. */
  lemma RollLayout(rng: Stream, drawn: nat, magicPct: int, normal: seq<AttrRow>, rare: seq<AttrRow>,
                   bType: int, bSubType: int, slots: Slots)
    requires AllShaped(normal) && AllShaped(rare) && Tidy(slots)
    ensures var t := Roll(rng, drawn, magicPct, normal, rare, bType, bSubType, slots).slots;
            t == slots ||
            (SetIndex(bType, bSubType).Some? && CountNorm(slots) == 0 &&
             Laid(normal, rare, SetIndex(bType, bSubType).value, slots, t))
  {
    if magicPct > 0 && InRange(rng(drawn), 1, 100) <= magicPct && CountNorm(slots) == 0 {
      MagicGrows(rng, drawn + 1, normal, bType, bSubType, slots);
      var m := Magic(rng, drawn + 1, normal, bType, bSubType, slots);
      RareGrows(rng, m.drawn, rare, bType, bSubType, m.slots);
      var t := AddRare(rng, m.drawn, rare, bType, bSubType, m.slots);
      if SetIndex(bType, bSubType).Some? {
        BothParts(normal, rare, SetIndex(bType, bSubType).value, slots, m.slots, t.slots);
      }
    }
  }

  // ------------------------------------------------------------- the chances

  /** A row may be chosen when it is enabled for the set and the slots of the
      kind do not hold its apply index yet. */
  lemma UsableExact(r: AttrRow, set_: nat, slots: Slots, rare: bool)
    requires Shaped(r) && set_ < SET_NUM
    ensures Usable(r, set_, slots, rare) <==>
            && r.maxLevel[set_] > 0
            && forall j :: (if rare then 5 else 0) <= j < (if rare then 7 else 5) ==> slots[j].0 != r.apply
    ensures RareUsable(r, set_, slots) <==>
            r.maxLevel[set_] > 0 && r.apply != 0 && slots[5].0 != r.apply && slots[6].0 != r.apply
  {
  }

  /** The choice is made among all of them, in the order of the table. */
  lemma {:induction false} AvailableExact(table: seq<AttrRow>, set_: nat, slots: Slots, rare: bool, n: nat)
    requires AllShaped(table) && set_ < SET_NUM && n <= |table|
    ensures var a := Available(table, set_, slots, rare, n);
            && (forall i, j :: 0 <= i < j < |a| ==> a[i] < a[j])
            && forall i: nat :: i in a <==> i < n && Usable(table[i], set_, slots, rare)
  {
    if n > 0 {
      AvailableExact(table, set_, slots, rare, n - 1);
    }
  }

  lemma {:induction false} RareAvailableExact(table: seq<AttrRow>, set_: nat, slots: Slots, n: nat)
    requires AllShaped(table) && set_ < SET_NUM && n <= |table|
    ensures var a := RareAvailable(table, set_, slots, n);
            && (forall i, j :: 0 <= i < j < |a| ==> a[i] < a[j])
            && forall i: nat :: i in a <==> i < n && RareUsable(table[i], set_, slots)
  {
    if n > 0 {
      RareAvailableExact(table, set_, slots, n - 1);
      var a := RareAvailable(table, set_, slots, n - 1);
      forall i: nat
        ensures i in a + [n - 1] <==> i in a || i == n - 1
      {
      }
    }
  }

  lemma PutRow(rng: Stream, drawn: nat, table: seq<AttrRow>, set_: nat, slots: Slots, level: nat, rare: bool, k: nat)
    requires AllShaped(table) && set_ < SET_NUM && 1 <= level <= 5
    requires k < |Available(table, set_, slots, rare, |table|)|
    requires var ws := Weights(table, Available(table, set_, slots, rare, |table|));
             && Total(ws) > 0
             && WeightedPick.Sum(ws[..k]) < 1 + rng(drawn) % Total(ws) <= WeightedPick.Sum(ws[..k + 1])
    ensures var row := table[Available(table, set_, slots, rare, |table|)[k]];
            var value := ValueAt(row, set_, level);
            PutLevel(rng, drawn, table, set_, slots, level, rare) ==
            if value == 0 || (rare && CountRare(slots) == RARE_ATTR_NUM) then Rolled(slots, false, drawn + 1)
            else Rolled(Write(slots, rare, row.apply, value), true, drawn + 1)
  {
    var ws := Weights(table, Available(table, set_, slots, rare, |table|));
    WeightedPick.PickExact(ws, InRange(rng(drawn), 1, Total(ws)), 0, k);
  }

  /** One write in numbers: a draw is used unless the weights add up to nothing;
      the row is the one whose stretch of the running sums holds the roll; it is
      written unless its value is zero or the rare slots are full. */
  lemma PutChoice(rng: Stream, drawn: nat, table: seq<AttrRow>, set_: nat, slots: Slots, level: nat, rare: bool,
                  k: nat)
    requires AllShaped(table) && set_ < SET_NUM && 1 <= level <= 5
    requires k < |Available(table, set_, slots, rare, |table|)|
    requires var ws := Weights(table, Available(table, set_, slots, rare, |table|));
             && Total(ws) > 0
             && WeightedPick.Sum(ws[..k]) < 1 + rng(drawn) % Total(ws) <= WeightedPick.Sum(ws[..k + 1])
    ensures var row := table[Available(table, set_, slots, rare, |table|)[k]];
            var r := PutLevel(rng, drawn, table, set_, slots, level, rare);
            && r.drawn == drawn + 1
            && (r.ok <==> row.values[(if level <= row.maxLevel[set_] then level else row.maxLevel[set_]) - 1] != 0
                          && !(rare && CountRare(slots) == 2))
            && (!r.ok ==> r.slots == slots)
            && (r.ok ==> var at := if rare then 5 + CountRare(slots) else CountNorm(slots);
                         Gives(row, set_, level, r.slots[at]) && r.slots == slots[at := r.slots[at]])
  {
    PutRow(rng, drawn, table, set_, slots, level, rare, k);
    var row := table[Available(table, set_, slots, rare, |table|)[k]];
    if ValueAt(row, set_, level) != 0 {
      ValueGives(row, set_, level);
    }
  }

  /** The weights are the positive ones of the rows, and their total stops at
      2^32 - 1; a total of zero uses no draw. */
  lemma TotalNumbers(rng: Stream, drawn: nat, table: seq<AttrRow>, set_: nat, slots: Slots, level: nat, rare: bool)
    requires AllShaped(table) && set_ < SET_NUM && level >= 1
    ensures var avail := Available(table, set_, slots, rare, |table|);
            var ws := Weights(table, avail);
            && |ws| == |avail|
            && (forall k :: 0 <= k < |ws| ==> ws[k] == if table[avail[k]].prob > 0 then table[avail[k]].prob else 0)
            && Total(ws) == (if WeightedPick.Sum(ws) <= 0xFFFF_FFFF then WeightedPick.Sum(ws) else 0xFFFF_FFFF)
            && (WeightedPick.Sum(ws) == 0 ==>
                 PutLevel(rng, drawn, table, set_, slots, level, rare) == Rolled(slots, false, drawn))
  {
  }

  /** The level of a roll from one to a hundred: for the first attribute. */
  function HighLevel(roll: int): (level: nat) {
    if roll <= 30 then 1 else if roll <= 70 then 2 else if roll <= 90 then 3 else if roll <= 98 then 4 else 5
  }

  /** And for the second and third. */
  function LowLevel(roll: int): (level: nat) {
    if roll <= 50 then 1 else if roll <= 90 then 2 else 3
  }

  lemma FivePick(ws: seq<nat>, roll: int)
    requires |ws| == 5
    ensures WeightedPick.Pick(ws, roll, 4) ==
            if roll <= ws[0] then 0
            else if roll <= ws[0] + ws[1] then 1
            else if roll <= ws[0] + ws[1] + ws[2] then 2
            else if roll <= ws[0] + ws[1] + ws[2] + ws[3] then 3
            else 4
  {
    var a, b, c := roll - ws[0], roll - ws[0] - ws[1], roll - ws[0] - ws[1] - ws[2];
    assert WeightedPick.PickFrom(ws, 4, c - ws[3], 4) == 4;
    assert WeightedPick.PickFrom(ws, 0, roll, 4) == if roll <= ws[0] then 0 else WeightedPick.PickFrom(ws, 1, a, 4);
    assert WeightedPick.PickFrom(ws, 1, a, 4) == if a <= ws[1] then 1 else WeightedPick.PickFrom(ws, 2, b, 4);
    assert WeightedPick.PickFrom(ws, 2, b, 4) == if b <= ws[2] then 2 else WeightedPick.PickFrom(ws, 3, c, 4);
  }

  /** Which level the roll brings. */
  lemma PutHigh(rng: Stream, drawn: nat, table: seq<AttrRow>, set_: nat, slots: Slots)
    requires AllShaped(table) && set_ < SET_NUM
    ensures Put(rng, drawn, table, set_, slots, PERCENT_HIGH) ==
            PutLevel(rng, drawn + 1, table, set_, slots, HighLevel(1 + rng(drawn) % 100), false)
  {
    var roll := InRange(rng(drawn), 1, 100);
    FivePick(PERCENT_HIGH, roll);
    assert HighLevel(roll) == WeightedPick.Pick(PERCENT_HIGH, roll, 4) + 1;
  }

  lemma PutLow(rng: Stream, drawn: nat, table: seq<AttrRow>, set_: nat, slots: Slots)
    requires AllShaped(table) && set_ < SET_NUM
    ensures Put(rng, drawn, table, set_, slots, PERCENT_LOW) ==
            PutLevel(rng, drawn + 1, table, set_, slots, LowLevel(1 + rng(drawn) % 100), false)
  {
    var roll := InRange(rng(drawn), 1, 100);
    FivePick(PERCENT_LOW, roll);
    assert LowLevel(roll) == WeightedPick.Pick(PERCENT_LOW, roll, 4) + 1;
  }

  /** Of a hundred in how many cases a second attribute comes: twenty for a
      weapon, ten for armour; and a third: five, two for body armour, one else. */
  function SecondOf(bType: int): (chance: nat) {
    if bType == 1 then 20 else 10
  }

  function ThirdOf(bType: int, bSubType: int): (chance: nat) {
    if bType == 1 then 5 else if bSubType == 0 then 2 else 1
  }

  /** The second or third attribute in numbers. */
  function Another(rng: Stream, drawn: nat, chance: nat, table: seq<AttrRow>, set_: nat, slots: Slots): (r: Rolled)
    requires AllShaped(table) && set_ < SET_NUM
  {
    if 1 + rng(drawn) % 100 > chance then Rolled(slots, false, drawn + 1)
    else PutLevel(rng, drawn + 2, table, set_, slots, LowLevel(1 + rng(drawn + 1) % 100), false)
  }

  lemma AnotherIs(rng: Stream, drawn: nat, chance: nat, table: seq<AttrRow>, set_: nat, slots: Slots)
    requires AllShaped(table) && set_ < SET_NUM
    ensures PutMaybe(rng, drawn, chance, table, set_, slots) == Another(rng, drawn, chance, table, set_, slots)
  {
    PutLow(rng, drawn + 1, table, set_, slots);
  }

  /** The whole of `alter_to_magic_item` in numbers. */
  lemma MagicNumbers(rng: Stream, drawn: nat, table: seq<AttrRow>, bType: int, bSubType: int, slots: Slots)
    requires AllShaped(table) && SetIndex(bType, bSubType).Some?
    ensures var set_ := SetIndex(bType, bSubType).value;
            var a := PutLevel(rng, drawn + 1, table, set_, slots, HighLevel(1 + rng(drawn) % 100), false);
            var b := Another(rng, a.drawn, SecondOf(bType), table, set_, a.slots);
            Magic(rng, drawn, table, bType, bSubType, slots)
            == Another(rng, b.drawn, ThirdOf(bType, bSubType), table, set_, b.slots)
  {
    var set_ := SetIndex(bType, bSubType).value;
    PutHigh(rng, drawn, table, set_, slots);
    var a := Put(rng, drawn, table, set_, slots, PERCENT_HIGH);
    AnotherIs(rng, a.drawn, SecondOf(bType), table, set_, a.slots);
    var b := PutMaybe(rng, a.drawn, SecondOf(bType), table, set_, a.slots);
    AnotherIs(rng, b.drawn, ThirdOf(bType, bSubType), table, set_, b.slots);
  }

  /** The rare attribute in numbers: the usable rows share the draws evenly, and
      the level is five. */
  lemma RareNumbers(rng: Stream, drawn: nat, table: seq<AttrRow>, bType: int, bSubType: int, slots: Slots)
    requires AllShaped(table) && SetIndex(bType, bSubType).Some? && CountRare(slots) < 2
    requires RareAvailable(table, SetIndex(bType, bSubType).value, slots, |table|) != []
    ensures var set_ := SetIndex(bType, bSubType).value;
            var avail := RareAvailable(table, set_, slots, |table|);
            var row := table[avail[rng(drawn) % |avail|]];
            var r := AddRare(rng, drawn, table, bType, bSubType, slots);
            && r.drawn == drawn + 1
            && (r.ok <==> row.values[(if 5 <= row.maxLevel[set_] then 5 else row.maxLevel[set_]) - 1] != 0)
            && (!r.ok ==> r.slots == slots)
            && (r.ok ==> var at := 5 + CountRare(slots);
                         Gives(row, set_, 5, r.slots[at]) && r.slots == slots[at := r.slots[at]])
  {
    var set_ := SetIndex(bType, bSubType).value;
    var avail := RareAvailable(table, set_, slots, |table|);
    var row := table[avail[rng(drawn) % |avail|]];
    if ValueAt(row, set_, MAX_LEVEL) != 0 {
      ValueGives(row, set_, MAX_LEVEL);
    }
  }

  /** The whole roll in numbers: no draw without a chance, one draw for a roll
      above it or for an item that has a normal attribute, and else the magic
      attributes and then the rare one. */
  lemma RollNumbers(rng: Stream, drawn: nat, magicPct: int, normal: seq<AttrRow>, rare: seq<AttrRow>,
                    bType: int, bSubType: int, slots: Slots)
    requires AllShaped(normal) && AllShaped(rare)
    ensures var r := Roll(rng, drawn, magicPct, normal, rare, bType, bSubType, slots);
            if magicPct <= 0 then r.slots == slots && r.drawn == drawn
            else if 1 + rng(drawn) % 100 > magicPct || slots[0].0 != 0 then r.slots == slots && r.drawn == drawn + 1
            else var m := Magic(rng, drawn + 1, normal, bType, bSubType, slots);
                 r == AddRare(rng, m.drawn, rare, bType, bSubType, m.slots)
  {
  }

  lemma RollsBetween(s: set<int>, lo: nat, hi: nat)
    requires lo <= hi && forall roll :: roll in s <==> lo < roll <= hi
    ensures |s| == hi - lo
  {
    assert s == WeightedPick.Interval(lo, hi);
  }

  ghost function HighRolls(level: nat): (s: set<int>) {
    set roll | 1 <= roll <= 100 && HighLevel(roll) == level
  }

  ghost function LowRolls(level: nat): (s: set<int>) {
    set roll | 1 <= roll <= 100 && LowLevel(roll) == level
  }

  /** How many of the hundred rolls bring each level. */
  lemma LevelShares()
    ensures |HighRolls(1)| == 30 && |HighRolls(2)| == 40 && |HighRolls(3)| == 20
    ensures |HighRolls(4)| == 8 && |HighRolls(5)| == 2
    ensures |LowRolls(1)| == 50 && |LowRolls(2)| == 40 && |LowRolls(3)| == 10
  {
    RollsBetween(HighRolls(1), 0, 30);
    RollsBetween(HighRolls(2), 30, 70);
    RollsBetween(HighRolls(3), 70, 90);
    RollsBetween(HighRolls(4), 90, 98);
    RollsBetween(HighRolls(5), 98, 100);
    RollsBetween(LowRolls(1), 0, 50);
    RollsBetween(LowRolls(2), 50, 90);
    RollsBetween(LowRolls(3), 90, 100);
  }

  /** How many of the first `n` values of the random source (all of them for
      n = 2^32) make the loop choose a given row, when the weights do not
      saturate: its weight once for each whole round of the total, and its part
      of the last round. Of the rolls themselves, exactly its weight. */
  lemma RowShare(table: seq<AttrRow>, set_: nat, slots: Slots, rare: bool, k: nat, n: nat)
    requires AllShaped(table) && set_ < SET_NUM
    requires k < |Available(table, set_, slots, rare, |table|)|
    requires 0 < WeightedPick.Sum(Weights(table, Available(table, set_, slots, rare, |table|))) <= U32_MAX
    ensures var avail := Available(table, set_, slots, rare, |table|);
            var ws, w := Weights(table, avail), Weight(table[avail[k]]);
            var total, lo := Total(ws), WeightedPick.Sum(ws[..k]);
            |WeightedPick.Rolls(ws, total, 0, k)| == w &&
            WeightedPick.Hits(ws, total, 0, k, n) == (n / total) * w + WeightedPick.Reach(n % total, lo, lo + w)
  {
    WeightedPick.FullShare(Weights(table, Available(table, set_, slots, rare, |table|)), 0, k, n);
  }
}
