/** The exchange unit as mutations: the texts of its statements, their
    parameters in order, and what the statements mean. */
module ExchangeSql {
  import opened Common
  import opened Uuid
  import opened Codec
  import opened RoundTrip
  import opened WalFile
  import opened Recovery
  import opened Replay
  import opened SqlTables
  import opened Exchange
  import opened ExchangeUnits
  import opened Pipeline

  /** The five statement texts; their wording does not matter here. */
  datatype Texts = Texts(upsert: string, upsertFresh: string, deleteMaterial: string, updateMaterial: string,
                         updateGold: string)

  /** They are told apart, and none spans a line. */
  predicate Proper(x: Texts) {
    && x.upsert !in [x.upsertFresh, x.deleteMaterial, x.updateMaterial, x.updateGold]
    && x.upsertFresh !in [x.deleteMaterial, x.updateMaterial, x.updateGold]
    && x.deleteMaterial !in [x.updateMaterial, x.updateGold]
    && x.updateMaterial != x.updateGold
    && '\n' !in x.upsert && '\n' !in x.upsertFresh && '\n' !in x.deleteMaterial
    && '\n' !in x.updateMaterial && '\n' !in x.updateGold
  }

  predicate IsI64(n: int) {
    -0x8000_0000_0000_0000 <= n < 0x8000_0000_0000_0000
  }

  predicate RowFitsI64(row: ItemRow)
    requires Sized(row)
  {
    && IsI64(row.id) && IsI64(row.pos) && IsI64(row.count) && IsI64(row.vnum)
    && (forall i :: 0 <= i < 3 ==> IsI64(row.sockets[i]))
    && (forall i :: 0 <= i < 7 ==> IsI64(row.attrs[i].0) && IsI64(row.attrs[i].1))
  }

  /** All numbers are the original's integers. */
  predicate Machine(ex: ItemExchange)
    requires Complete(ex)
  {
    && IsI64(ex.owner)
    && (forall i :: 0 <= i < |ex.materials| ==>
         IsI64(ex.materials[i].id) && IsI64(ex.materials[i].pre) && IsI64(ex.materials[i].post))
    && (ex.result.Some? ==> RowFitsI64(ex.result.value.0) && IsI64(ex.result.value.1))
    && (ex.gold.Some? ==> IsI64(ex.gold.value.0) && IsI64(ex.gold.value.1))
  }

  // ------------------------------------------------------------- parameters

  function Attr(row: ItemRow, i: nat): (v: int)
    requires Sized(row) && i < 14
  {
    if i % 2 == 0 then row.attrs[i / 2].0 else row.attrs[i / 2].1
  }

  /** The parameters of an upsert besides the id. */
  function RowParams(row: ItemRow, owner: int): (ps: seq<Param>)
    requires Sized(row) && RowFitsI64(row) && IsI64(owner)
    ensures |ps| == 22
  {
    [Int(owner), Text(row.window), Int(row.pos), Int(row.count), Int(row.vnum)]
    + seq(3, i requires 0 <= i < 3 => Int(row.sockets[i]))
    + seq(14, i requires 0 <= i < 14 => Int(Attr(row, i)))
  }

  function ItemParams(row: ItemRow, owner: int): (ps: seq<Param>)
    requires Sized(row) && RowFitsI64(row) && IsI64(owner)
    ensures |ps| == if row.id != 0 then 23 else 22
  {
    (if row.id != 0 then [Int(row.id)] else []) + RowParams(row, owner)
  }

  lemma PushNext<T>(front: seq<T>, all: seq<T>, k: nat)
    requires k < |all|
    ensures front + all[..k] + [all[k]] == front + all[..k + 1]
  {
  }

  method PushHead(front: seq<Param>, row: ItemRow, owner: int) returns (params: seq<Param>)
    requires Sized(row) && RowFitsI64(row) && IsI64(owner)
    ensures params == front + RowParams(row, owner)[..5]
  {
    params := front;
    params := params + [Int(owner)];
    params := params + [Text(row.window)];
    params := params + [Int(row.pos)];
    params := params + [Int(row.count)];
    params := params + [Int(row.vnum)];
  }

  /** `item_params_mutation`: the vector grown in loops. */
  method ItemParamsMutation(row: ItemRow, owner: int) returns (params: seq<Param>)
    requires Sized(row) && RowFitsI64(row) && IsI64(owner)
    ensures params == ItemParams(row, owner)
  {
    params := [];
    if row.id != 0 {
      params := params + [Int(row.id)];
    }
    ghost var id, all := params, RowParams(row, owner);
    params := PushHead(params, row, owner);
    for i := 0 to 3
      invariant params == id + all[..5 + i]
    {
      PushNext(id, all, 5 + i);
      params := params + [Int(row.sockets[i])];
    }
    for i := 0 to 7
      invariant params == id + all[..8 + 2 * i]
    {
      PushNext(id, all, 8 + 2 * i);
      PushNext(id, all, 9 + 2 * i);
      AttrParams(row, owner, i);
      params := params + [Int(row.attrs[i].0)];
      params := params + [Int(row.attrs[i].1)];
    }
    assert all[..22] == all;
  }

  lemma AttrParams(row: ItemRow, owner: int, i: nat)
    requires Sized(row) && RowFitsI64(row) && IsI64(owner) && i < 7
    ensures RowParams(row, owner)[8 + 2 * i] == Int(row.attrs[i].0)
    ensures RowParams(row, owner)[9 + 2 * i] == Int(row.attrs[i].1)
  {
    assert Attr(row, 2 * i) == row.attrs[i].0 && Attr(row, 2 * i + 1) == row.attrs[i].1;
  }

  function MaterialMutation(x: Texts, id: Bytes16, m: Material): (u: Mutation)
    requires IsI64(m.id) && IsI64(m.pre) && IsI64(m.post)
  {
    if m.post == 0 then Mutation(id, x.deleteMaterial, [Int(m.id), Int(m.pre)])
    else Mutation(id, x.updateMaterial, [Int(m.id), Int(m.post), Int(m.pre)])
  }

  /** `upsert_mutation`. */
  function UpsertMutation(x: Texts, id: Bytes16, row: ItemRow, owner: int): (u: Mutation)
    requires Sized(row) && RowFitsI64(row) && IsI64(owner)
  {
    Mutation(id, if row.id == 0 then x.upsertFresh else x.upsert, ItemParams(row, owner))
  }

  function GoldMutation(x: Texts, id: Bytes16, owner: int, pre: int, post: int): (u: Mutation)
    requires IsI64(owner) && IsI64(pre) && IsI64(post)
  {
    Mutation(id, x.updateGold, [Int(owner), Int(post), Int(pre)])
  }

  function MaterialUnits(x: Texts, ids: seq<Bytes16>, ex: ItemExchange): (us: seq<Mutation>)
    requires Complete(ex) && Machine(ex) && |ids| >= |ex.materials|
    ensures |us| == |ex.materials|
    ensures forall i :: 0 <= i < |us| ==> us[i] == MaterialMutation(x, ids[i], ex.materials[i])
  {
    seq(|ex.materials|, i requires 0 <= i < |ex.materials| => MaterialMutation(x, ids[i], ex.materials[i]))
  }

  /** The unit, with the identifiers its mutations drew. */
  function UnitOf(x: Texts, ids: seq<Bytes16>, ex: ItemExchange): (us: seq<Mutation>)
    requires Complete(ex) && Machine(ex) && |ids| >= |ex.materials| + 2
  {
    var n := |ex.materials|;
    MaterialUnits(x, ids, ex)
    + (if ex.result.Some? then [UpsertMutation(x, ids[n], ex.result.value.0, ex.result.value.1)] else [])
    + (if ex.gold.Some? then [GoldMutation(x, ids[n + 1], ex.owner, ex.gold.value.0, ex.gold.value.1)] else [])
  }

  /** `exchange_mutations`: a vector grown material by material. */
  method ExchangeMutations(x: Texts, ids: seq<Bytes16>, ex: ItemExchange) returns (out: seq<Mutation>)
    requires Complete(ex) && Machine(ex) && |ids| >= |ex.materials| + 2
    ensures out == UnitOf(x, ids, ex)
  {
    out := [];
    var n := |ex.materials|;
    for i := 0 to n
      invariant out == MaterialUnits(x, ids, ex)[..i]
    {
      var m := ex.materials[i];
      if m.post == 0 {
        out := out + [Mutation(ids[i], x.deleteMaterial, [Int(m.id), Int(m.pre)])];
      } else {
        out := out + [Mutation(ids[i], x.updateMaterial, [Int(m.id), Int(m.post), Int(m.pre)])];
      }
    }
    if ex.result.Some? {
      var row, owner := ex.result.value.0, ex.result.value.1;
      var params := ItemParamsMutation(row, owner);
      out := out + [Mutation(ids[n], if row.id == 0 then x.upsertFresh else x.upsert, params)];
    }
    if ex.gold.Some? {
      out := out + [Mutation(ids[n + 1], x.updateGold, [Int(ex.owner), Int(ex.gold.value.1), Int(ex.gold.value.0)])];
    }
  }

  lemma SocketsInFull(row: ItemRow)
    requires Sized(row) && RowFitsI64(row)
    ensures seq(3, i requires 0 <= i < 3 => Int(row.sockets[i])) ==
            [Int(row.sockets[0]), Int(row.sockets[1]), Int(row.sockets[2])]
  {
  }

  lemma AttrsInFull(row: ItemRow)
    requires Sized(row) && RowFitsI64(row)
    ensures seq(14, i requires 0 <= i < 14 => Int(Attr(row, i))) ==
            [Int(row.attrs[0].0), Int(row.attrs[0].1), Int(row.attrs[1].0), Int(row.attrs[1].1),
             Int(row.attrs[2].0), Int(row.attrs[2].1), Int(row.attrs[3].0), Int(row.attrs[3].1),
             Int(row.attrs[4].0), Int(row.attrs[4].1), Int(row.attrs[5].0), Int(row.attrs[5].1),
             Int(row.attrs[6].0), Int(row.attrs[6].1)]
  {
  }

  /** The parameters of the upsert besides the id, one by one. */
  lemma RowInFull(row: ItemRow, owner: int)
    requires Sized(row) && RowFitsI64(row) && IsI64(owner)
    ensures RowParams(row, owner) ==
            [Int(owner), Text(row.window), Int(row.pos), Int(row.count), Int(row.vnum)]
            + [Int(row.sockets[0]), Int(row.sockets[1]), Int(row.sockets[2])]
            + [Int(row.attrs[0].0), Int(row.attrs[0].1), Int(row.attrs[1].0), Int(row.attrs[1].1),
               Int(row.attrs[2].0), Int(row.attrs[2].1), Int(row.attrs[3].0), Int(row.attrs[3].1),
               Int(row.attrs[4].0), Int(row.attrs[4].1), Int(row.attrs[5].0), Int(row.attrs[5].1),
               Int(row.attrs[6].0), Int(row.attrs[6].1)]
  {
    SocketsInFull(row);
    AttrsInFull(row);
  }

  /** The unit one by one: for each material its id, then the count it leaves
      unless that is zero, then the count it expects; the upsert, with the id in
      front if there is one; and the gold, with the owner, what is left and what
      is expected. */
  lemma UnitInFull(x: Texts, ids: seq<Bytes16>, ex: ItemExchange)
    requires Complete(ex) && Machine(ex) && |ids| >= |ex.materials| + 2
    ensures var us, n := UnitOf(x, ids, ex), |ex.materials|;
            && |us| == n + (if ex.result.Some? then 1 else 0) + (if ex.gold.Some? then 1 else 0)
            && (forall i :: 0 <= i < n ==>
                 var m := ex.materials[i];
                 us[i] == if m.post == 0 then Mutation(ids[i], x.deleteMaterial, [Int(m.id), Int(m.pre)])
                          else Mutation(ids[i], x.updateMaterial, [Int(m.id), Int(m.post), Int(m.pre)]))
            && (ex.result.Some? ==>
                 var row, owner := ex.result.value.0, ex.result.value.1;
                 us[n] == if row.id == 0 then Mutation(ids[n], x.upsertFresh, RowParams(row, owner))
                          else Mutation(ids[n], x.upsert, [Int(row.id)] + RowParams(row, owner)))
            && (ex.gold.Some? ==>
                 us[|us| - 1] ==
                 Mutation(ids[n + 1], x.updateGold, [Int(ex.owner), Int(ex.gold.value.1), Int(ex.gold.value.0)]))
  {
    if ex.result.Some? && ex.result.value.0.id == 0 {
      var ps := RowParams(ex.result.value.0, ex.result.value.1);
      assert [] + ps == ps;
    }
  }

  // ---------------------------------------------------------------- meaning

  function ValueOf(p: Param): (v: Value) {
    match p
    case Int(n) => Number(n)
    case Text(s) => Words(s)
    case _ => Number(0)
  }

  /** The place of a column in the column list of the two upserts. */
  function Place(c: Column): (i: nat)
    requires c in Columns(Item)
    ensures i < 22
  {
    match c
    case Owner => 0
    case Window => 1
    case Pos => 2
    case Count => 3
    case Vnum => 4
    case Socket(i) => 5 + i
    case AttrType(i) => 8 + 2 * i
    case AttrValue(i) => 9 + 2 * i
    case _ => 0
  }

  function RowOf(ps: seq<Param>): (r: Row)
    requires |ps| == 22
    ensures r.Keys == Columns(Item)
  {
    map c | c in Columns(Item) :: ValueOf(ps[Place(c)])
  }

  predicate AllInts(ps: seq<Param>, n: nat) {
    |ps| == n && forall i :: 0 <= i < n ==> ps[i].Int?
  }

  /** What the five statements do with their parameters; any other text means
      what `other` says. */
  function Meaning(x: Texts, other: Mutation -> Op, m: Mutation): (op: Op) {
    var ps := m.params;
    if m.sql == x.deleteMaterial && AllInts(ps, 2) then DeleteIf(ItemKey(ps[0].i), Count, ps[1].i)
    else if m.sql == x.updateMaterial && AllInts(ps, 3) then UpdateIf(ItemKey(ps[0].i), Count, ps[2].i, ps[1].i)
    else if m.sql == x.updateGold && AllInts(ps, 3) then UpdateIf(Key(Player, ps[0].i), Gold, ps[2].i, ps[1].i)
    else if m.sql == x.upsert && |ps| == 23 && ps[0].Int? then Upsert(ItemKey(ps[0].i), RowOf(ps[1..]))
    else if m.sql == x.upsertFresh && |ps| == 22 then UpsertFresh(Item, RowOf(ps))
    else other(m)
  }

  /** The parameters are in the order of the columns. */
  lemma ParamsInPlace(row: ItemRow, owner: int)
    requires Sized(row) && RowFitsI64(row) && IsI64(owner)
    ensures RowOf(RowParams(row, owner)) == ItemColumns(row, owner)
  {
    var ps := RowParams(row, owner);
    forall c | c in Columns(Item)
      ensures ValueOf(ps[Place(c)]) == ItemValue(c, row, owner)
    {
      ParamInPlace(row, owner, c);
    }
  }

  lemma ParamInPlace(row: ItemRow, owner: int, c: Column)
    requires Sized(row) && RowFitsI64(row) && IsI64(owner) && c in Columns(Item)
    ensures ValueOf(RowParams(row, owner)[Place(c)]) == ItemValue(c, row, owner)
  {
    match c
    case AttrType(i) => assert Attr(row, 2 * i) == row.attrs[i].0;
    case AttrValue(i) => assert Attr(row, 2 * i + 1) == row.attrs[i].1;
    case _ =>
  }

  lemma MaterialMeans(x: Texts, other: Mutation -> Op, id: Bytes16, m: Material)
    requires Proper(x) && IsI64(m.id) && IsI64(m.pre) && IsI64(m.post)
    ensures Meaning(x, other, MaterialMutation(x, id, m)) == MaterialOp(m)
  {
  }

  lemma GoldMeans(x: Texts, other: Mutation -> Op, id: Bytes16, owner: int, pre: int, post: int)
    requires Proper(x) && IsI64(owner) && IsI64(pre) && IsI64(post)
    ensures Meaning(x, other, GoldMutation(x, id, owner, pre, post)) == UpdateIf(Key(Player, owner), Gold, pre, post)
  {
  }

  lemma NamedMeans(x: Texts, other: Mutation -> Op, m: Mutation)
    requires Proper(x) && m.sql == x.upsert && |m.params| == 23 && m.params[0].Int?
    ensures Meaning(x, other, m) == Upsert(ItemKey(m.params[0].i), RowOf(m.params[1..]))
  {
  }

  lemma FreshMeans(x: Texts, other: Mutation -> Op, m: Mutation)
    requires Proper(x) && m.sql == x.upsertFresh && |m.params| == 22
    ensures Meaning(x, other, m) == UpsertFresh(Item, RowOf(m.params))
  {
  }

  lemma UpsertMeans(x: Texts, other: Mutation -> Op, id: Bytes16, row: ItemRow, owner: int)
    requires Proper(x) && Sized(row) && RowFitsI64(row) && IsI64(owner)
    ensures Meaning(x, other, UpsertMutation(x, id, row, owner)) == UpsertOp(row, owner)
  {
    var m, ps := UpsertMutation(x, id, row, owner), RowParams(row, owner);
    ParamsInPlace(row, owner);
    if row.id != 0 {
      assert m.params[1..] == ps && m.params[0] == Int(row.id);
      NamedMeans(x, other, m);
    } else {
      assert m.params == ps;
      FreshMeans(x, other, m);
    }
  }

  function MeaningOf(x: Texts, other: Mutation -> Op): (meaning: Mutation -> Op) {
    m => Meaning(x, other, m)
  }

  /** Statement by statement, the mutations of the unit do what the unit says:
      texts and parameters fit together. */
  lemma UnitMeans(x: Texts, other: Mutation -> Op, ids: seq<Bytes16>, ex: ItemExchange)
    requires Proper(x) && Complete(ex) && Machine(ex) && |ids| >= |ex.materials| + 2
    ensures OpsOf(MeaningOf(x, other), UnitOf(x, ids, ex)) == ExchangeOps(ex)
  {
    var n := |ex.materials|;
    var us, ops := UnitOf(x, ids, ex), ExchangeOps(ex);
    forall i | 0 <= i < n
      ensures Meaning(x, other, us[i]) == ops[i]
    {
      MaterialMeans(x, other, ids[i], ex.materials[i]);
    }
    if ex.result.Some? {
      UpsertMeans(x, other, ids[n], ex.result.value.0, ex.result.value.1);
    }
    if ex.gold.Some? {
      GoldMeans(x, other, ids[n + 1], ex.owner, ex.gold.value.0, ex.gold.value.1);
    }
  }

  // ------------------------------------------------------------ identifiers

  ghost predicate Distinct(ids: seq<Bytes16>) {
    forall i, j :: 0 <= i < j < |ids| ==> ids[i] != ids[j]
  }

  function IdsOf(us: Batch): (ids: seq<Bytes16>)
    ensures |ids| == |us| && forall i :: 0 <= i < |us| ==> ids[i] == us[i].id
  {
    seq(|us|, i requires 0 <= i < |us| => us[i].id)
  }

  lemma {:induction false} AsManyRows(us: Batch)
    requires Distinct(IdsOf(us))
    ensures |Ids(us)| == |us|
    decreases |us|
  {
    if us != [] {
      var n := |us| - 1;
      assert IdsOf(us[..n]) == IdsOf(us)[..n];
      AsManyRows(us[..n]);
      assert Ids(us) == Ids(us[..n]) + {us[n].id} by {
        IdsSnoc(us, n);
        assert us[..n + 1] == us;
      }
      assert us[n].id !in Ids(us[..n]) by {
        forall i | 0 <= i < n
          ensures us[..n][i].id != us[n].id
        {
          assert IdsOf(us)[i] != IdsOf(us)[n];
        }
      }
    }
  }

  /** Identifiers drawn apart stay apart: no two mutations of the unit share
      one, and each is one of those drawn. */
  lemma UnitIds(x: Texts, ids: seq<Bytes16>, ex: ItemExchange)
    requires Complete(ex) && Machine(ex) && |ids| >= |ex.materials| + 2 && Distinct(ids)
    ensures Distinct(IdsOf(UnitOf(x, ids, ex))) && |Ids(UnitOf(x, ids, ex))| == |UnitOf(x, ids, ex)|
    ensures forall id :: id in IdsOf(UnitOf(x, ids, ex)) ==> id in ids
  {
    var n, us := |ex.materials|, UnitOf(x, ids, ex);
    forall i | 0 <= i < |us|
      ensures us[i].id == ids[if i < n || ex.result.Some? then i else n + 1]
    {
    }
    AsManyRows(us);
  }

  /** So a committed batch with fresh identifiers leaves one audit row a
      mutation. */
  lemma OneRowEach(exec: Recovery.Exec<Db>, s: State<Db>, w: Worker, t: State<Db>)
    requires Transact(exec, s, w) == Some(t)
    requires Distinct(IdsOf(s.worker.batch)) && s.audit !! Ids(s.worker.batch)
    ensures |t.audit| == |s.audit| + |s.worker.batch|
  {
    AsManyRows(s.worker.batch);
  }

  // ----------------------------------------------------------- in the pipeline

  /** A unit that a file brings back and that generates no identifier: the
      window of its result is plain text on one line. */
  ghost predicate Replayable(ex: ItemExchange) {
    && Complete(ex) && Machine(ex) && Explicit(ex)
    && (ex.result.Some? ==> var w := ex.result.value.0.window; '\n' !in w && Exact(Text(w)))
  }

  ghost predicate AllReplayable(ids: seq<seq<Bytes16>>, exs: seq<ItemExchange>) {
    |ids| == |exs| && forall u :: 0 <= u < |exs| ==> Replayable(exs[u]) && |ids[u]| >= |exs[u].materials| + 2
  }

  /** Unit after unit. */
  ghost function UnitsOf(x: Texts, ids: seq<seq<Bytes16>>, exs: seq<ItemExchange>): (batch: Batch)
    requires AllReplayable(ids, exs)
    decreases |exs|
  {
    if exs == [] then [] else
      assert forall u :: 0 <= u < |exs[1..]| ==> exs[1..][u] == exs[u + 1] && ids[1..][u] == ids[u + 1];
      UnitOf(x, ids[0], exs[0]) + UnitsOf(x, ids[1..], exs[1..])
  }

  ghost predicate UnitsAre(x: Texts, batch: Batch, ids: seq<seq<Bytes16>>, exs: seq<ItemExchange>) {
    AllReplayable(ids, exs) && GuardsSettled(exs) && batch == UnitsOf(x, ids, exs)
  }

  /** Any number of units whose guarded statements settle at every row that is
      no unit's result. */
  ghost predicate IsUnits(x: Texts, batch: Batch) {
    exists ids: seq<seq<Bytes16>>, exs: seq<ItemExchange> :: UnitsAre(x, batch, ids, exs)
  }

  lemma UnitKeeps(x: Texts, ids: seq<Bytes16>, ex: ItemExchange)
    requires Proper(x) && Replayable(ex) && |ids| >= |ex.materials| + 2
    ensures Keeps(UnitOf(x, ids, ex))
  {
    var us := UnitOf(x, ids, ex);
    forall i | 0 <= i < |us|
      ensures OnOneLine(us[i]) && forall j :: 0 <= j < |us[i].params| ==> Exact(us[i].params[j])
    {
    }
  }

  lemma KeepsAppend(a: Batch, b: Batch)
    requires Keeps(a) && Keeps(b)
    ensures Keeps(a + b)
  {
  }

  /** The mutations of all units do what the units say, and a file brings them
      back. */
  lemma {:induction false} UnitsMean(x: Texts, other: Mutation -> Op, ids: seq<seq<Bytes16>>, exs: seq<ItemExchange>)
    requires Proper(x) && AllReplayable(ids, exs)
    ensures AllComplete(exs) && OpsOf(MeaningOf(x, other), UnitsOf(x, ids, exs)) == UnitsOps(exs)
    ensures Keeps(UnitsOf(x, ids, exs))
    decreases |exs|
  {
    if exs != [] {
      var a, b := UnitOf(x, ids[0], exs[0]), UnitsOf(x, ids[1..], exs[1..]);
      UnitMeans(x, other, ids[0], exs[0]);
      UnitKeeps(x, ids[0], exs[0]);
      UnitsMean(x, other, ids[1..], exs[1..]);
      OpsOfAppend(MeaningOf(x, other), a, b);
      KeepsAppend(a, b);
    }
  }

  /** All the identifiers that the units draw. */
  lemma {:induction false} UnitsIds(x: Texts, ids: seq<seq<Bytes16>>, exs: seq<ItemExchange>)
    requires AllReplayable(ids, exs) && Distinct(Flatten(ids))
    ensures Distinct(IdsOf(UnitsOf(x, ids, exs))) && |Ids(UnitsOf(x, ids, exs))| == |UnitsOf(x, ids, exs)|
    ensures forall id :: id in IdsOf(UnitsOf(x, ids, exs)) ==> id in Flatten(ids)
    decreases |exs|
  {
    if exs != [] {
      var a, b := UnitOf(x, ids[0], exs[0]), UnitsOf(x, ids[1..], exs[1..]);
      DistinctParts(ids[0], Flatten(ids[1..]));
      UnitIds(x, ids[0], exs[0]);
      UnitsIds(x, ids[1..], exs[1..]);
      assert IdsOf(a + b) == IdsOf(a) + IdsOf(b);
      DistinctJoined(IdsOf(a), IdsOf(b), ids[0], Flatten(ids[1..]));
    }
    AsManyRows(UnitsOf(x, ids, exs));
  }

  lemma DistinctParts(a: seq<Bytes16>, b: seq<Bytes16>)
    requires Distinct(a + b)
    ensures Distinct(a) && Distinct(b) && forall x, y :: x in a && y in b ==> x != y
  {
    forall i, j | 0 <= i < j < |a|
      ensures a[i] != a[j]
    {
      assert (a + b)[i] != (a + b)[j];
    }
    forall i, j | 0 <= i < j < |b|
      ensures b[i] != b[j]
    {
      assert (a + b)[|a| + i] != (a + b)[|a| + j];
    }
    forall x, y | x in a && y in b
      ensures x != y
    {
      var i :| 0 <= i < |a| && a[i] == x;
      var j :| 0 <= j < |b| && b[j] == y;
      assert (a + b)[i] != (a + b)[|a| + j];
    }
  }

  lemma DistinctJoined(a: seq<Bytes16>, b: seq<Bytes16>, x: seq<Bytes16>, y: seq<Bytes16>)
    requires Distinct(a) && Distinct(b) && forall u, v :: u in x && v in y ==> u != v
    requires (forall u :: u in a ==> u in x) && (forall v :: v in b ==> v in y)
    ensures Distinct(a + b) && forall u :: u in a + b ==> u in x + y
  {
    forall i, j | 0 <= i < j < |a + b|
      ensures (a + b)[i] != (a + b)[j]
    {
      if i < |a| <= j {
        assert a[i] in x && b[j - |a|] in y;
      }
    }
  }

  lemma UnitsStable(x: Texts, other: Mutation -> Op, ids: seq<seq<Bytes16>>, exs: seq<ItemExchange>)
    requires Proper(x) && AllReplayable(ids, exs) && GuardsSettled(exs)
    ensures StableOps(OpsOf(MeaningOf(x, other), UnitsOf(x, ids, exs))) && Keeps(UnitsOf(x, ids, exs))
  {
    UnitsMean(x, other, ids, exs);
    UnitsReplayExact(exs);
  }

  /** Recovery of exchanges, from the mutations on: when every persisted batch
      is units of any players one after the other, settled at every row, names
      are fresh and no commit passes an outstanding older file, an empty
      directory means that every unit ever persisted was applied exactly once,
      in order. */
  lemma ExchangesRecover(x: Texts, other: Mutation -> Op, d0: Db, steps: seq<Step>, s: State<Db>)
    requires Proper(x)
    requires var exec := SqlExec(MeaningOf(x, other));
             && FreshRun(exec, Init(d0, {}), steps) && OrderedRun(exec, Init(d0, {}), steps)
             && Run(exec, Init(d0, {}), steps) == Some(s)
    requires forall k :: 0 <= k < |steps| && steps[k].Persist? ==> IsUnits(x, steps[k].batch)
    requires s.dir == map[]
    ensures RunOps(d0, AllOps(MeaningOf(x, other), s.log)) == Some(s.db)
  {
    var meaning := MeaningOf(x, other);
    forall k | 0 <= k < |steps| && steps[k].Persist?
      ensures StableOps(OpsOf(meaning, steps[k].batch)) && Keeps(steps[k].batch)
    {
      var ids: seq<seq<Bytes16>>, exs: seq<ItemExchange> :| UnitsAre(x, steps[k].batch, ids, exs);
      UnitsStable(x, other, ids, exs);
    }
    SqlPipelineRecovers(meaning, d0, steps, s);
  }
}
