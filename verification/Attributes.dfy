/** Rolling the random attributes of a new item: the two tables, the weighted
    choice, and the layout of the seven slots. */
module Attributes {
  import opened Common
  import WeightedPick

  /** Rust's `u32`. */
  type u32 = x: int | 0 <= x < 0x1_0000_0000

  const U32_MAX: nat := 0xFFFF_FFFF
  const NORM_ATTR_NUM := 5
  const RARE_ATTR_NUM := 2
  const SLOT_NUM := 7
  const SET_NUM := 8
  const MAX_LEVEL := 5

  const PERCENT_HIGH: seq<nat> := [30, 40, 20, 8, 2]
  const PERCENT_LOW: seq<nat> := [50, 40, 10, 0, 0]

  /** A table row: apply index, weight, value by level, and the highest level
      for each of the eight item sets (0: not for that set). */
  datatype AttrRow = AttrRow(apply: int, prob: int, values: seq<int>, maxLevel: seq<int>)

  predicate Shaped(r: AttrRow) {
    |r.values| == MAX_LEVEL && |r.maxLevel| == SET_NUM
  }

  predicate AllShaped(table: seq<AttrRow>) {
    forall i :: 0 <= i < |table| ==> Shaped(table[i])
  }

  /** Apply index and value of each slot; apply 0 is an empty slot. */
  type Slots = s: seq<(int, int)> | |s| == SLOT_NUM witness seq(SLOT_NUM, i => (0, 0))

  /** The set of the item, from its type and subtype. */
  function SetIndex(bType: int, bSubType: int): (r: Option<nat>)
    ensures r.Some? ==> r.value < SET_NUM
  {
    if bType == 1 then (if bSubType == 6 then None else Some(0))
    else if bType == 2 then
      match bSubType
      case 0 => Some(1)
      case 3 => Some(2)
      case 4 => Some(3)
      case 5 => Some(4)
      case 1 => Some(5)
      case 2 => Some(6)
      case 6 => Some(7)
      case _ => None
    else None
  }

  /** An item has a set when it is a weapon other than an arrow or armour of one
      of seven kinds; all such weapons share the first set, and armours share
      one exactly when they are of the same kind. */
  lemma SetIndexExact(bType: int, bSubType: int, cType: int, cSubType: int)
    ensures SetIndex(bType, bSubType).Some? <==> (bType == 1 && bSubType != 6) || (bType == 2 && 0 <= bSubType <= 6)
    ensures SetIndex(bType, bSubType) == Some(0) <==> bType == 1 && bSubType != 6
    ensures SetIndex(bType, bSubType).Some? && SetIndex(cType, cSubType).Some? ==>
              (SetIndex(bType, bSubType) == SetIndex(cType, cSubType) <==>
               bType == cType && (bType == 1 || bSubType == cSubType))
  {
  }

  /** The sets in the order of the table's columns: weapon, body, wrist, foots,
      neck, head, shield, ear. */
  lemma SetsInOrder()
    ensures forall k :: 0 <= k <= 5 || k >= 7 ==> SetIndex(1, k) == Some(0)
    ensures SetIndex(2, 0) == Some(1) && SetIndex(2, 3) == Some(2) && SetIndex(2, 4) == Some(3)
    ensures SetIndex(2, 5) == Some(4) && SetIndex(2, 1) == Some(5) && SetIndex(2, 2) == Some(6)
    ensures SetIndex(2, 6) == Some(7)
  {
  }

  /** `number(min, max)` applied to one draw. */
  function InRange(x: u32, min: nat, max: nat): (n: nat)
    requires min <= max
    ensures min <= n <= max
  {
    min + x % (max - min + 1)
  }

  predicate Has(slots: Slots, lo: nat, hi: nat, apply: int)
    requires lo <= hi <= SLOT_NUM
  {
    exists i :: lo <= i < hi && slots[i].0 == apply
  }

  /** Occupied slots from `lo` on, up to the first empty one. */
  function Occupied(slots: Slots, lo: nat, hi: nat): (n: nat)
    requires lo <= hi <= SLOT_NUM
    ensures n <= hi - lo
    ensures forall i :: lo <= i < lo + n ==> slots[i].0 != 0
    ensures lo + n < hi ==> slots[lo + n].0 == 0
    decreases hi - lo
  {
    if lo < hi && slots[lo].0 != 0 then 1 + Occupied(slots, lo + 1, hi) else 0
  }

  function CountNorm(slots: Slots): (n: nat)
    ensures n <= NORM_ATTR_NUM
  {
    Occupied(slots, 0, NORM_ATTR_NUM)
  }

  function CountRare(slots: Slots): (n: nat)
    ensures n <= RARE_ATTR_NUM
  {
    Occupied(slots, NORM_ATTR_NUM, SLOT_NUM)
  }

  /** `as i16`. */
  function I16(v: int): (w: int)
    ensures -0x8000 <= w < 0x8000
  {
    (v + 0x8000) % 0x1_0000 - 0x8000
  }

  // ------------------------------------------------------ the weighted choice

  predicate Usable(r: AttrRow, set_: nat, slots: Slots, rare: bool)
    requires Shaped(r) && set_ < SET_NUM
  {
    r.maxLevel[set_] > 0 &&
    !(if rare then Has(slots, NORM_ATTR_NUM, SLOT_NUM, r.apply) else Has(slots, 0, NORM_ATTR_NUM, r.apply))
  }

  /** Indices of the usable rows among the first `n`. */
  function Available(table: seq<AttrRow>, set_: nat, slots: Slots, rare: bool, n: nat): (a: seq<nat>)
    requires AllShaped(table) && set_ < SET_NUM && n <= |table|
    ensures forall i :: 0 <= i < |a| ==> a[i] < n && Usable(table[a[i]], set_, slots, rare)
  {
    if n == 0 then []
    else
      var a := Available(table, set_, slots, rare, n - 1);
      if Usable(table[n - 1], set_, slots, rare) then a + [n - 1] else a
  }

  function Weight(r: AttrRow): (w: nat) {
    if r.prob > 0 then r.prob else 0
  }

  function Weights(table: seq<AttrRow>, avail: seq<nat>): (ws: seq<nat>)
    requires forall i :: 0 <= i < |avail| ==> avail[i] < |table|
    ensures |ws| == |avail| && forall i :: 0 <= i < |avail| ==> ws[i] == Weight(table[avail[i]])
  {
    seq(|avail|, i requires 0 <= i < |avail| => Weight(table[avail[i]]))
  }

  /** The running total saturates. */
  function Total(ws: seq<nat>): (t: nat)
    ensures t <= U32_MAX
  {
    WeightedPick.Min(WeightedPick.Sum(ws), U32_MAX)
  }

  /** Levels are 1-based, capped by the row; values by the table's width. */
  function ValueAt(r: AttrRow, set_: nat, level: nat): (v: int)
    requires Shaped(r) && set_ < SET_NUM && r.maxLevel[set_] > 0 && level >= 1
  {
    r.values[WeightedPick.Min(WeightedPick.Min(level, r.maxLevel[set_]) - 1, MAX_LEVEL - 1)]
  }

  /** Slots, whether something was written, and the draws used so far. */
  datatype Rolled = Rolled(slots: Slots, ok: bool, drawn: nat)

  type Stream = nat -> u32

  /** Writing an attribute into the first free slot of its kind. */
  function Write(slots: Slots, rare: bool, apply: int, value: int): (s: Slots)
    requires CountNorm(slots) < SLOT_NUM
    requires rare ==> CountRare(slots) < RARE_ATTR_NUM
  {
    slots[if rare then NORM_ATTR_NUM + CountRare(slots) else CountNorm(slots) := (apply, I16(value))]
  }

  function PutLevel(rng: Stream, drawn: nat, table: seq<AttrRow>, set_: nat, slots: Slots, level: nat, rare: bool)
    : (r: Rolled)
    requires AllShaped(table) && set_ < SET_NUM && level >= 1
  {
    var avail := Available(table, set_, slots, rare, |table|);
    var ws := Weights(table, avail);
    if Total(ws) == 0 then Rolled(slots, false, drawn)
    else
      WeightedPickIsRow(ws, InRange(rng(drawn), 1, Total(ws)));
      var row := table[avail[WeightedPick.Pick(ws, InRange(rng(drawn), 1, Total(ws)), 0)]];
      var value := ValueAt(row, set_, level);
      if value == 0 || (rare && CountRare(slots) == RARE_ATTR_NUM) then Rolled(slots, false, drawn + 1)
      else Rolled(Write(slots, rare, row.apply, value), true, drawn + 1)
  }

  lemma WeightedPickIsRow(ws: seq<nat>, roll: nat)
    requires 1 <= roll <= Total(ws)
    ensures WeightedPick.Pick(ws, roll, 0) < |ws|
  {
    var k := WeightedPick.RowOfRoll(ws, roll);
    WeightedPick.PickExact(ws, roll, 0, k);
  }

  function Put(rng: Stream, drawn: nat, table: seq<AttrRow>, set_: nat, slots: Slots, percent: seq<nat>): (r: Rolled)
    requires AllShaped(table) && set_ < SET_NUM && |percent| == MAX_LEVEL
  {
    var level := WeightedPick.Pick(percent, InRange(rng(drawn), 1, 100), MAX_LEVEL - 1) + 1;
    PutLevel(rng, drawn + 1, table, set_, slots, level, false)
  }

  /** The chances of a second and a third attribute. */
  function Chances(bType: int, bSubType: int): (c: (nat, nat)) {
    if bType == 1 then (20, 5) else if bSubType == 0 then (10, 2) else (10, 1)
  }

  /** One more attribute with the low table, if its chance comes up. */
  function PutMaybe(rng: Stream, drawn: nat, chance: nat, table: seq<AttrRow>, set_: nat, slots: Slots): (r: Rolled)
    requires AllShaped(table) && set_ < SET_NUM
  {
    if InRange(rng(drawn), 1, 100) <= chance then Put(rng, drawn + 1, table, set_, slots, PERCENT_LOW)
    else Rolled(slots, false, drawn + 1)
  }

  function Magic(rng: Stream, drawn: nat, table: seq<AttrRow>, bType: int, bSubType: int, slots: Slots): (r: Rolled)
    requires AllShaped(table)
  {
    var set_ := SetIndex(bType, bSubType);
    if set_.None? then Rolled(slots, false, drawn)
    else
      var c := Chances(bType, bSubType);
      var a := Put(rng, drawn, table, set_.value, slots, PERCENT_HIGH);
      var b := PutMaybe(rng, a.drawn, c.0, table, set_.value, a.slots);
      PutMaybe(rng, b.drawn, c.1, table, set_.value, b.slots)
  }

  predicate RareUsable(r: AttrRow, set_: nat, slots: Slots)
    requires Shaped(r) && set_ < SET_NUM
  {
    r.apply != 0 && r.maxLevel[set_] > 0 && !Has(slots, NORM_ATTR_NUM, SLOT_NUM, r.apply)
  }

  function RareAvailable(table: seq<AttrRow>, set_: nat, slots: Slots, n: nat): (a: seq<nat>)
    requires AllShaped(table) && set_ < SET_NUM && n <= |table|
    ensures |a| <= n && forall i :: 0 <= i < |a| ==> a[i] < n && RareUsable(table[a[i]], set_, slots)
  {
    if n == 0 then []
    else
      var a := RareAvailable(table, set_, slots, n - 1);
      if RareUsable(table[n - 1], set_, slots) then a + [n - 1] else a
  }

  function AddRare(rng: Stream, drawn: nat, table: seq<AttrRow>, bType: int, bSubType: int, slots: Slots): (r: Rolled)
    requires AllShaped(table)
  {
    var set_ := SetIndex(bType, bSubType);
    if CountRare(slots) >= RARE_ATTR_NUM || set_.None? then Rolled(slots, false, drawn)
    else
      var avail := RareAvailable(table, set_.value, slots, |table|);
      if avail == [] then Rolled(slots, false, drawn)
      else
        var row := table[avail[InRange(rng(drawn), 0, |avail| - 1)]];
        var value := ValueAt(row, set_.value, MAX_LEVEL);
        if value == 0 then Rolled(slots, false, drawn + 1)
        else Rolled(Write(slots, true, row.apply, value), true, drawn + 1)
  }

  /** The slots after `roll_attrs`; an item that already has a normal
      attribute is left as it is. */
  function Roll(rng: Stream, drawn: nat, magicPct: int, normal: seq<AttrRow>, rare: seq<AttrRow>,
                bType: int, bSubType: int, slots: Slots): (r: Rolled)
    requires AllShaped(normal) && AllShaped(rare)
  {
    if magicPct <= 0 then Rolled(slots, false, drawn)
    else if InRange(rng(drawn), 1, 100) > magicPct || CountNorm(slots) > 0 then Rolled(slots, false, drawn + 1)
    else
      var m := Magic(rng, drawn + 1, normal, bType, bSubType, slots);
      AddRare(rng, m.drawn, rare, bType, bSubType, m.slots)
  }

  // ----------------------------------------------- the functions as written

  /** The random source: a stream and how much of it is used. */
  class Rng {
    const stream: Stream
    var drawn: nat

    constructor (stream: Stream)
      ensures this.stream == stream && drawn == 0
    {
      this.stream := stream;
      drawn := 0;
    }

    method Number(min: nat, max: nat) returns (n: nat)
      requires min <= max
      modifies this
      ensures drawn == old(drawn) + 1
      ensures n == InRange(stream(old(drawn)), min, max)
    {
      n := InRange(stream(drawn), min, max);
      drawn := drawn + 1;
    }
  }

  /** The loop that collects the usable rows and their total. */
  method CollectAvailable(table: seq<AttrRow>, set_: nat, attrs: array<(int, int)>, rare: bool)
    returns (avail: seq<nat>, total: nat)
    requires AllShaped(table) && set_ < SET_NUM && attrs.Length == SLOT_NUM
    ensures avail == Available(table, set_, attrs[..], rare, |table|)
    ensures total == Total(Weights(table, avail))
  {
    avail, total := [], 0;
    for i := 0 to |table|
      invariant avail == Available(table, set_, attrs[..], rare, i)
      invariant total == Total(Weights(table, avail))
    {
      if Usable(table[i], set_, attrs[..], rare) {
        var more := avail + [i];
        assert Weights(table, more)[..|avail|] == Weights(table, avail);
        avail := more;
        total := WeightedPick.Min(total + Weight(table[i]), U32_MAX);
      }
    }
  }

  /** `put_attribute_with_level`. */
  method PutAttributeWithLevel(rng: Rng, table: seq<AttrRow>, set_: nat, attrs: array<(int, int)>, level: nat,
                               rare: bool)
    returns (ok: bool)
    requires AllShaped(table) && set_ < SET_NUM && attrs.Length == SLOT_NUM && level >= 1
    modifies rng, attrs
    ensures Rolled(attrs[..], ok, rng.drawn) ==
            PutLevel(rng.stream, old(rng.drawn), table, set_, old(attrs[..]), level, rare)
  {
    var avail, total := CollectAvailable(table, set_, attrs, rare);
    if total == 0 {
      return false;
    }
    var roll := rng.Number(1, total);
    var ws := Weights(table, avail);
    WeightedPickIsRow(ws, roll);
    var pick := WeightedPick.Select(ws, roll, 0);
    var row := table[avail[pick]];
    var value := ValueAt(row, set_, level);
    if value == 0 {
      return false;
    }
    var count := if rare then CountRare(attrs[..]) else CountNorm(attrs[..]);
    var pos := if rare then NORM_ATTR_NUM + count else count;
    if pos >= SLOT_NUM {
      return false;
    }
    attrs[pos] := (row.apply, I16(value));
    return true;
  }

  /** `put_attribute`: the level by percentile, then the attribute. */
  method PutAttribute(rng: Rng, table: seq<AttrRow>, set_: nat, attrs: array<(int, int)>, percent: seq<nat>)
    returns (ok: bool)
    requires AllShaped(table) && set_ < SET_NUM && attrs.Length == SLOT_NUM && |percent| == MAX_LEVEL
    modifies rng, attrs
    ensures Rolled(attrs[..], ok, rng.drawn) ==
            Put(rng.stream, old(rng.drawn), table, set_, old(attrs[..]), percent)
  {
    var roll := rng.Number(1, 100);
    var level := WeightedPick.Select(percent, roll, MAX_LEVEL - 1);
    ok := PutAttributeWithLevel(rng, table, set_, attrs, level + 1, false);
  }

  /** A second or third attribute, if its chance comes up. */
  method PutByChance(rng: Rng, chance: nat, table: seq<AttrRow>, set_: nat, attrs: array<(int, int)>)
    requires AllShaped(table) && set_ < SET_NUM && attrs.Length == SLOT_NUM
    modifies rng, attrs
    ensures var m := PutMaybe(rng.stream, old(rng.drawn), chance, table, set_, old(attrs[..]));
            attrs[..] == m.slots && rng.drawn == m.drawn
  {
    var roll := rng.Number(1, 100);
    if roll <= chance {
      var _ := PutAttribute(rng, table, set_, attrs, PERCENT_LOW);
    }
  }

  /** `alter_to_magic_item`. */
  method AlterToMagicItem(rng: Rng, normal: seq<AttrRow>, bType: int, bSubType: int, attrs: array<(int, int)>)
    requires AllShaped(normal) && attrs.Length == SLOT_NUM
    modifies rng, attrs
    ensures var m := Magic(rng.stream, old(rng.drawn), normal, bType, bSubType, old(attrs[..]));
            attrs[..] == m.slots && rng.drawn == m.drawn
  {
    var set_ := SetIndex(bType, bSubType);
    if set_.None? {
      return;
    }
    var (second, third) := Chances(bType, bSubType);
    var _ := PutAttribute(rng, normal, set_.value, attrs, PERCENT_HIGH);
    PutByChance(rng, second, normal, set_.value, attrs);
    PutByChance(rng, third, normal, set_.value, attrs);
  }

  /** `add_rare_attribute`. */
  method AddRareAttribute(rng: Rng, rare: seq<AttrRow>, bType: int, bSubType: int, attrs: array<(int, int)>)
    returns (ok: bool)
    requires AllShaped(rare) && attrs.Length == SLOT_NUM
    modifies rng, attrs
    ensures Rolled(attrs[..], ok, rng.drawn) ==
            AddRare(rng.stream, old(rng.drawn), rare, bType, bSubType, old(attrs[..]))
  {
    var set_ := SetIndex(bType, bSubType);
    var count := CountRare(attrs[..]);
    if count >= RARE_ATTR_NUM || set_.None? {
      return false;
    }
    var avail := RareAvailable(rare, set_.value, attrs[..], |rare|);
    if avail == [] {
      return false;
    }
    var pick := rng.Number(0, |avail| - 1);
    var row := rare[avail[pick]];
    var value := ValueAt(row, set_.value, MAX_LEVEL);
    if value == 0 {
      return false;
    }
    attrs[NORM_ATTR_NUM + count] := (row.apply, I16(value));
    return true;
  }

  /** The loop over the sockets: the first ones are opened. */
  method OpenSockets(socketPct: int, sockets: array<int>)
    requires sockets.Length == 3
    modifies sockets
    ensures forall i :: 0 <= i < 3 ==>
              sockets[i] == if i < socketPct && old(sockets[i]) == 0 then 1 else old(sockets[i])
  {
    for i := 0 to sockets.Length
      invariant forall j :: 0 <= j < i ==>
        sockets[j] == if j < socketPct && old(sockets[j]) == 0 then 1 else old(sockets[j])
      invariant forall j :: i <= j < 3 ==> sockets[j] == old(sockets[j])
    {
      if i < socketPct && sockets[i] == 0 {
        sockets[i] := 1;
      }
    }
  }

  /** The part of `roll_attrs` behind the sockets. */
  method RollMagic(rng: Rng, magicPct: int, normal: seq<AttrRow>, rare: seq<AttrRow>, bType: int, bSubType: int,
                   attrs: array<(int, int)>)
    requires AllShaped(normal) && AllShaped(rare) && attrs.Length == SLOT_NUM
    modifies rng, attrs
    ensures var r := Roll(rng.stream, old(rng.drawn), magicPct, normal, rare, bType, bSubType, old(attrs[..]));
            attrs[..] == r.slots && rng.drawn == r.drawn
  {
    if magicPct <= 0 {
      return;
    }
    var roll := rng.Number(1, 100);
    if roll > magicPct || CountNorm(attrs[..]) > 0 {
      return;
    }
    ghost var m := Magic(rng.stream, rng.drawn, normal, bType, bSubType, attrs[..]);
    AlterToMagicItem(rng, normal, bType, bSubType, attrs);
    assert attrs[..] == m.slots && rng.drawn == m.drawn;
    var _ := AddRareAttribute(rng, rare, bType, bSubType, attrs);
  }

  /** `roll_attrs`: sockets always, attributes if the roll says so. */
  method RollAttrs(rng: Rng, magicPct: int, socketPct: int, normal: seq<AttrRow>, rare: seq<AttrRow>,
                   bType: int, bSubType: int, sockets: array<int>, attrs: array<(int, int)>)
    requires AllShaped(normal) && AllShaped(rare) && attrs.Length == SLOT_NUM && sockets.Length == 3
    modifies rng, sockets, attrs
    ensures var r := Roll(rng.stream, old(rng.drawn), magicPct, normal, rare, bType, bSubType, old(attrs[..]));
            attrs[..] == r.slots && rng.drawn == r.drawn
    ensures forall i :: 0 <= i < 3 ==>
              sockets[i] == if i < socketPct && old(sockets[i]) == 0 then 1 else old(sockets[i])
  {
    OpenSockets(socketPct, sockets);
    RollMagic(rng, magicPct, normal, rare, bType, bSubType, attrs);
  }
}
