/** The mutations of the item exchange and of the safebox size, and what
    happens when the WAL applies them again. */
module Exchange {
  import opened Common
  import opened SqlTables

  datatype ItemRow = ItemRow(id: int, window: string, pos: int, count: int, vnum: int,
                             sockets: seq<int>, attrs: seq<(int, int)>)

  /** The arrays of the original have a fixed length. */
  predicate Sized(row: ItemRow) {
    |row.sockets| == 3 && |row.attrs| == 7
  }

  datatype Material = Material(id: int, pre: int, post: int)

  datatype ItemExchange = ItemExchange(
    owner: int,
    materials: seq<Material>,
    result: Option<(ItemRow, int)>,
    gold: Option<(int, int)>)

  /** What the item upsert puts into a column. */
  function ItemValue(c: Column, row: ItemRow, owner: int): (v: Value)
    requires Sized(row)
  {
    match c
    case Owner => Number(owner)
    case Window => Words(row.window)
    case Pos => Number(row.pos)
    case Count => Number(row.count)
    case Vnum => Number(row.vnum)
    case Socket(i) => Number(if i < 3 then row.sockets[i] else 0)
    case AttrType(i) => Number(if i < 7 then row.attrs[i].0 else 0)
    case AttrValue(i) => Number(if i < 7 then row.attrs[i].1 else 0)
    case _ => Number(0)
  }

  /** The upsert names every column of the table besides the key. */
  function ItemColumns(row: ItemRow, owner: int): (r: Row)
    requires Sized(row)
    ensures r.Keys == Columns(Item) && Count in r && r[Count] == Number(row.count)
  {
    map c | c in Columns(Item) :: ItemValue(c, row, owner)
  }

  /** Column by column. */
  lemma ColumnsInFull(row: ItemRow, owner: int)
    requires Sized(row)
    ensures var r := ItemColumns(row, owner);
            && Owner in r && r[Owner] == Number(owner) && Window in r && r[Window] == Words(row.window)
            && Pos in r && r[Pos] == Number(row.pos) && Count in r && r[Count] == Number(row.count)
            && Vnum in r && r[Vnum] == Number(row.vnum)
            && (forall i: nat :: i < 3 ==> Socket(i) in r && r[Socket(i)] == Number(row.sockets[i]))
            && (forall i: nat :: i < 7 ==>
                 && AttrType(i) in r && r[AttrType(i)] == Number(row.attrs[i].0)
                 && AttrValue(i) in r && r[AttrValue(i)] == Number(row.attrs[i].1))
  {
  }

  function ItemKey(id: int): (k: Key) { Key(Item, id) }

  /** A material is consumed only from the count the caller saw. */
  function MaterialOp(m: Material): (op: Op) {
    if m.post == 0 then DeleteIf(ItemKey(m.id), Count, m.pre)
    else UpdateIf(ItemKey(m.id), Count, m.pre, m.post)
  }

  /** Identifier 0 asks for a fresh key. */
  function UpsertOp(row: ItemRow, owner: int): (op: Op)
    requires Sized(row)
  {
    if row.id == 0 then UpsertFresh(Item, ItemColumns(row, owner))
    else Upsert(ItemKey(row.id), ItemColumns(row, owner))
  }

  function MaterialOps(ms: seq<Material>): (ops: seq<Op>)
    ensures |ops| == |ms| && forall i :: 0 <= i < |ms| ==> ops[i] == MaterialOp(ms[i])
    ensures AllKeyed(ops)
  {
    seq(|ms|, i requires 0 <= i < |ms| => MaterialOp(ms[i]))
  }

  function ResultOps(ex: ItemExchange): (ops: seq<Op>)
    requires Complete(ex)
  {
    if ex.result.Some? then [UpsertOp(ex.result.value.0, ex.result.value.1)] else []
  }

  function GoldOps(ex: ItemExchange): (ops: seq<Op>)
    ensures AllKeyed(ops)
  {
    if ex.gold.Some? then [UpdateIf(Key(Player, ex.owner), Gold, ex.gold.value.0, ex.gold.value.1)] else []
  }

  predicate Complete(ex: ItemExchange) {
    ex.result.Some? ==> Sized(ex.result.value.0)
  }

  function ExchangeOps(ex: ItemExchange): (ops: seq<Op>)
    requires Complete(ex)
  {
    MaterialOps(ex.materials) + ResultOps(ex) + GoldOps(ex)
  }

  // ------------------------------------------------------ statements per row

  ghost predicate DistinctIds(ms: seq<Material>) {
    forall i, j :: 0 <= i < j < |ms| ==> ms[i].id != ms[j].id
  }

  lemma {:induction false} OnAppend(k: Key, a: seq<Statement>, b: seq<Statement>)
    requires AllKeyed(a) && AllKeyed(b)
    ensures AllKeyed(a + b) && On(k, a + b) == On(k, a) + On(k, b)
  {
    if a == [] {
      assert a + b == b;
    } else {
      assert (a + b)[0] == a[0] && (a + b)[1..] == a[1..] + b;
      OnAppend(k, a[1..], b);
    }
  }

  /** At most one material statement touches a row. */
  lemma {:induction false} OnMaterial(ms: seq<Material>, i: nat)
    requires DistinctIds(ms) && i < |ms|
    ensures On(ItemKey(ms[i].id), MaterialOps(ms)) == [MaterialOp(ms[i])]
  {
    var k := ItemKey(ms[i].id);
    assert MaterialOps(ms)[1..] == MaterialOps(ms[1..]);
    if i == 0 {
      OnNothing(k, MaterialOps(ms)[1..]);
    } else {
      OnMaterial(ms[1..], i - 1);
    }
  }

  lemma OnOtherItem(ms: seq<Material>, k: Key)
    requires forall i :: 0 <= i < |ms| ==> ItemKey(ms[i].id) != k
    ensures On(k, MaterialOps(ms)) == []
  {
    OnNothing(k, MaterialOps(ms));
  }

  lemma OneOn(k: Key, op: Statement)
    requires Keyed(op)
    ensures On(k, [op]) == if op.key == k then [op] else []
  {
    assert [op][1..] == [];
  }

  /** The material statements on one row: none or one. */
  function MaterialOn(ms: seq<Material>, k: Key): (ops: seq<Op>)
    ensures AllKeyed(ops)
  {
    if ms == [] then []
    else if ItemKey(ms[0].id) == k then [MaterialOp(ms[0])]
    else MaterialOn(ms[1..], k)
  }

  lemma {:induction false} MaterialOnIsOn(ms: seq<Material>, k: Key)
    requires DistinctIds(ms)
    ensures On(k, MaterialOps(ms)) == MaterialOn(ms, k)
  {
    if ms != [] {
      assert MaterialOps(ms)[1..] == MaterialOps(ms[1..]);
      MaterialOnIsOn(ms[1..], k);
      if ItemKey(ms[0].id) == k {
        OnOtherItem(ms[1..], k);
      }
    }
  }

  lemma {:induction false} MaterialOnCases(ms: seq<Material>, k: Key)
    ensures MaterialOn(ms, k) == [] ||
            exists i :: 0 <= i < |ms| && ItemKey(ms[i].id) == k && MaterialOn(ms, k) == [MaterialOp(ms[i])]
  {
    if ms != [] && ItemKey(ms[0].id) != k {
      MaterialOnCases(ms[1..], k);
      if MaterialOn(ms, k) != [] {
        var i :| 0 <= i < |ms[1..]| && ItemKey(ms[1..][i].id) == k
                 && MaterialOn(ms[1..], k) == [MaterialOp(ms[1..][i])];
        assert ms[i + 1] == ms[1..][i];
      }
    }
  }

  predicate Explicit(ex: ItemExchange) {
    ex.result.Some? ==> ex.result.value.0.id != 0
  }

  /** What the whole unit does to one row. */
  lemma OnExchange(ex: ItemExchange, k: Key)
    requires Complete(ex) && Explicit(ex) && DistinctIds(ex.materials)
    ensures AllKeyed(ExchangeOps(ex))
    ensures On(k, ExchangeOps(ex)) == MaterialOn(ex.materials, k) + On(k, ResultOps(ex)) + On(k, GoldOps(ex))
  {
    OnAppend(k, MaterialOps(ex.materials), ResultOps(ex));
    OnAppend(k, MaterialOps(ex.materials) + ResultOps(ex), GoldOps(ex));
    MaterialOnIsOn(ex.materials, k);
  }

  lemma NoMaterialOnPlayer(ms: seq<Material>, k: Key)
    requires k.table != Item
    ensures MaterialOn(ms, k) == []
  {
    MaterialOnCases(ms, k);
  }

  /** One guarded statement, one upsert, or one after the other. */
  lemma OnExchangeShapes(ex: ItemExchange, k: Key) returns (guarded: seq<Statement>, upsert: seq<Statement>)
    requires Complete(ex) && Explicit(ex) && DistinctIds(ex.materials)
    ensures AllKeyed(ExchangeOps(ex)) && AllKeyed(guarded + upsert)
    ensures On(k, ExchangeOps(ex)) == guarded + upsert
    ensures guarded == [] || (|guarded| == 1 && (guarded[0].UpdateIf? || guarded[0].DeleteIf?))
    ensures upsert == On(k, ResultOps(ex)) && (upsert != [] ==> upsert == ResultOps(ex) && ResultOps(ex)[0].key == k)
    ensures k.table == Item ==> guarded == MaterialOn(ex.materials, k)
    ensures k.table != Item ==> guarded == On(k, GoldOps(ex))
  {
    OnExchange(ex, k);
    MaterialOnCases(ex.materials, k);
    if ex.result.Some? {
      OneOn(k, ResultOps(ex)[0]);
    }
    if ex.gold.Some? {
      OneOn(k, GoldOps(ex)[0]);
    }
    upsert := On(k, ResultOps(ex));
    if k.table == Item {
      guarded := MaterialOn(ex.materials, k);
      assert On(k, GoldOps(ex)) == [];
    } else {
      NoMaterialOnPlayer(ex.materials, k);
      guarded := On(k, GoldOps(ex));
      assert upsert == [];
    }
  }

  // ----------------------------------------------------------------- replay

  lemma OneGuarded(op: Statement, fill: Row)
    requires op.UpdateIf? || op.DeleteIf?
    ensures RowStable([op], fill)
  {
    ChainStable([op], op.col, fill);
  }

  lemma OneUpsert(op: Statement, fill: Row)
    requires op.Upsert?
    ensures RowStable([op], fill)
  {
    WideUpsertsStable([op], fill);
  }

  lemma RunTwo(a: Statement, b: Statement, fill: Row, r: Option<Row>)
    requires Keyed(a) && Keyed(b)
    ensures RowRun([a, b], fill, r) == RowOp(b, fill, RowOp(a, fill, r))
  {
    assert [a, b][1..] == [b];
    RunOne(b, fill, RowOp(a, fill, r));
  }

  /** An upsert that writes every column makes the same row of anything. */
  lemma GuardedThenFull(a: Statement, b: Statement, fill: Row, r: Option<Row>)
    requires (a.UpdateIf? || a.DeleteIf?) && b.Upsert? && a.col in b.cols
    requires fill.Keys == b.cols.Keys && (r.Some? ==> r.value.Keys == b.cols.Keys)
    ensures RowRun([a, b], fill, r) == Some(b.cols)
  {
    RunTwo(a, b, fill, r);
    assert forall x: Row {:trigger x + b.cols} :: x.Keys == b.cols.Keys ==> x + b.cols == b.cols;
  }

  lemma ShapesTwice(guarded: seq<Statement>, upsert: seq<Statement>, fill: Row, r: Option<Row>)
    requires guarded == [] || (|guarded| == 1 && (guarded[0].UpdateIf? || guarded[0].DeleteIf?))
    requires upsert == [] || (|upsert| == 1 && upsert[0].Upsert?)
    requires guarded != [] && upsert != [] ==>
               guarded[0].col in upsert[0].cols &&
               fill.Keys == upsert[0].cols.Keys && (r.Some? ==> r.value.Keys == upsert[0].cols.Keys)
    ensures AllKeyed(guarded + upsert)
    ensures RowRun(guarded + upsert, fill, RowRun(guarded + upsert, fill, r)) == RowRun(guarded + upsert, fill, r)
  {
    if guarded == [] && upsert == [] {
    } else if upsert == [] {
      assert guarded + upsert == [guarded[0]];
      OneGuarded(guarded[0], fill);
    } else if guarded == [] {
      assert guarded + upsert == [upsert[0]];
      OneUpsert(upsert[0], fill);
    } else {
      assert guarded + upsert == [guarded[0], upsert[0]];
      GuardedThenFull(guarded[0], upsert[0], fill, r);
      GuardedThenFull(guarded[0], upsert[0], fill, Some(upsert[0].cols));
    }
  }

  lemma ExchangeRowStable(ex: ItemExchange, k: Key, fill: Row)
    requires Complete(ex) && Explicit(ex) && DistinctIds(ex.materials) && fill.Keys == Columns(k.table)
    ensures AllKeyed(ExchangeOps(ex)) && TableStable(k.table, On(k, ExchangeOps(ex)), fill)
  {
    var guarded, upsert := OnExchangeShapes(ex, k);
    MaterialOnCases(ex.materials, k);
    forall r | Fits(k.table, r)
      ensures RowRun(guarded + upsert, fill, RowRun(guarded + upsert, fill, r)) == RowRun(guarded + upsert, fill, r)
    {
      ShapesTwice(guarded, upsert, fill, r);
    }
  }

  lemma FreshExchangeUnstable(ex: ItemExchange)
    requires Complete(ex) && !Explicit(ex)
    ensures !StableOps(ExchangeOps(ex))
  {
    assert ExchangeOps(ex)[|ex.materials|] == UpsertOp(ex.result.value.0, ex.result.value.1);
    GeneratedIdUnstable(ExchangeOps(ex), |ex.materials|);
  }

  lemma GeneratedIdUnstable(ops: seq<Op>, i: nat)
    requires forall j :: 0 <= j < |ops| ==> !ops[j].InsertFresh?
    requires i < |ops| && !Keyed(ops[i])
    ensures !StableOps(ops)
  {
    var db := Single(Key(Item, 0), BlankRow(Item), None);
    NeverRejected(db, ops);
    FreshNeverStable(db, ops, RunOps(db, ops).value, i);
  }

  lemma {:induction false} NeverRejected(db: Db, ops: seq<Op>)
    requires forall i :: 0 <= i < |ops| ==> !ops[i].InsertFresh?
    ensures RunOps(db, ops).Some?
    decreases |ops|
  {
    if ops != [] {
      NeverRejected(Exec(db, ops[0]).value, ops[1..]);
    }
  }

  /** The exact condition under which the WAL may apply an exchange unit again
      over any database: the result is absent or names its row, even a row
      that is also a material. */
  lemma ExchangeReplayExact(ex: ItemExchange)
    requires Complete(ex) && DistinctIds(ex.materials)
    ensures StableOps(ExchangeOps(ex)) <==> Explicit(ex)
  {
    if !Explicit(ex) {
      FreshExchangeUnstable(ex);
    } else {
      OnExchange(ex, ItemKey(0));
      forall k: Key, fill: Row | fill.Keys == Columns(k.table)
        ensures TableStable(k.table, On(k, ExchangeOps(ex)), fill)
      {
        ExchangeRowStable(ex, k, fill);
      }
      RowsMakeStable(ExchangeOps(ex));
    }
  }

  // ----------------------------------------------------------------- effect

  /** What one guarded count update leaves. */
  function Consumed(r: Option<Row>, m: Material): (q: Option<Row>) {
    if r.None? || !Matches(r.value, Count, m.pre) then r
    else if m.post == 0 then None
    else Some(r.value[Count := Number(m.post)])
  }

  lemma MaterialConsumes(m: Material, fill: Row, r: Option<Row>)
    ensures RowRun([MaterialOp(m)], fill, r) == Consumed(r, m)
  {
    RunOne(MaterialOp(m), fill, r);
  }

  /** What the gold of the unit leaves, under its own guard. */
  function Paid(ex: ItemExchange, r: Option<Row>): (q: Option<Row>) {
    if ex.gold.Some? && r.Some? && Matches(r.value, Gold, ex.gold.value.0)
    then Some(r.value[Gold := Number(ex.gold.value.1)])
    else r
  }

  lemma GoldOpsPay(ex: ItemExchange, fill: Row, r: Option<Row>)
    ensures RowRun(GoldOps(ex), fill, r) == Paid(ex, r)
  {
    if ex.gold.Some? {
      RunOne(GoldOps(ex)[0], fill, r);
    }
  }

  predicate IsResult(ex: ItemExchange, id: int) {
    ex.result.Some? && ex.result.value.0.id == id
  }

  /** Rows the unit does not name. */
  ghost predicate Untouched(ex: ItemExchange, k: Key) {
    && k != Key(Player, ex.owner)
    && !(k.table == Item && IsResult(ex, k.pk))
    && forall i :: 0 <= i < |ex.materials| ==> ItemKey(ex.materials[i].id) != k
  }

  lemma RunOne(op: Statement, fill: Row, r: Option<Row>)
    requires Keyed(op)
    ensures RowRun([op], fill, r) == RowOp(op, fill, r)
  {
    assert [op][1..] == [];
  }

  /** One application of a unit with a named result. */
  ghost predicate Applied(ex: ItemExchange, db: Db, e: Db)
    requires Complete(ex)
  {
    && (forall i :: 0 <= i < |ex.materials| && !IsResult(ex, ex.materials[i].id) ==>
         GetRow(e, ItemKey(ex.materials[i].id)) == Consumed(GetRow(db, ItemKey(ex.materials[i].id)), ex.materials[i]))
    && (ex.result.Some? ==>
         GetRow(e, ItemKey(ex.result.value.0.id)) == Some(ItemColumns(ex.result.value.0, ex.result.value.1)))
    && GetRow(e, Key(Player, ex.owner)) == Paid(ex, GetRow(db, Key(Player, ex.owner)))
    && forall k :: Untouched(ex, k) ==> GetRow(e, k) == GetRow(db, k)
  }

  lemma NamedEffect(ex: ItemExchange, db: Db, e: Db)
    requires Complete(ex) && Explicit(ex) && DistinctIds(ex.materials)
    requires RunOps(db, ExchangeOps(ex)) == Some(e)
    ensures Applied(ex, db, e)
  {
    forall i | 0 <= i < |ex.materials| && !IsResult(ex, ex.materials[i].id)
      ensures GetRow(e, ItemKey(ex.materials[i].id)) ==
              Consumed(GetRow(db, ItemKey(ex.materials[i].id)), ex.materials[i])
    {
      MaterialEffect(ex, db, e, i);
    }
    if ex.result.Some? {
      ResultEffect(ex, db, e);
    }
    GoldEffect(ex, db, e);
    forall k | Untouched(ex, k)
      ensures GetRow(e, k) == GetRow(db, k)
    {
      FrameEffect(ex, db, e, k);
    }
  }

  lemma RowAfter(db: Db, ops: seq<Op>, e: Db, k: Key, mine: seq<Statement>)
    requires AllKeyed(ops) && RunOps(db, ops) == Some(e) && On(k, ops) == mine
    ensures GetRow(e, k) == RowRun(mine, Default(db, k.table), GetRow(db, k))
  {
    RowByRow(db, ops, k);
  }

  lemma MaterialEffect(ex: ItemExchange, db: Db, e: Db, i: nat)
    requires Complete(ex) && Explicit(ex) && DistinctIds(ex.materials)
    requires RunOps(db, ExchangeOps(ex)) == Some(e)
    requires i < |ex.materials| && !IsResult(ex, ex.materials[i].id)
    ensures GetRow(e, ItemKey(ex.materials[i].id)) == Consumed(GetRow(db, ItemKey(ex.materials[i].id)), ex.materials[i])
  {
    var m, ops := ex.materials[i], ExchangeOps(ex);
    var k := ItemKey(m.id);
    MaterialOnly(ex, i);
    RowAfter(db, ops, e, k, [MaterialOp(m)]);
    MaterialConsumes(m, Default(db, Item), GetRow(db, k));
  }

  lemma MaterialOnly(ex: ItemExchange, i: nat)
    requires Complete(ex) && Explicit(ex) && DistinctIds(ex.materials)
    requires i < |ex.materials| && !IsResult(ex, ex.materials[i].id)
    ensures AllKeyed(ExchangeOps(ex))
    ensures On(ItemKey(ex.materials[i].id), ExchangeOps(ex)) == [MaterialOp(ex.materials[i])]
  {
    var k := ItemKey(ex.materials[i].id);
    var guarded, upsert := OnExchangeShapes(ex, k);
    MaterialOnIsOn(ex.materials, k);
    OnMaterial(ex.materials, i);
    assert guarded + upsert == [MaterialOp(ex.materials[i])];
  }

  lemma ResultEffect(ex: ItemExchange, db: Db, e: Db)
    requires Complete(ex) && Explicit(ex) && DistinctIds(ex.materials) && ex.result.Some?
    requires RunOps(db, ExchangeOps(ex)) == Some(e)
    ensures GetRow(e, ItemKey(ex.result.value.0.id)) == Some(ItemColumns(ex.result.value.0, ex.result.value.1))
  {
    var k := ItemKey(ex.result.value.0.id);
    var guarded, upsert := OnExchangeShapes(ex, k);
    OneOn(k, ResultOps(ex)[0]);
    RowByRow(db, ExchangeOps(ex), k);
    RowFits(db, k);
    DefaultFits(db, Item);
    MaterialOnCases(ex.materials, k);
    ResultRow(guarded, upsert, Default(db, Item), GetRow(db, k));
  }

  lemma ResultRow(guarded: seq<Statement>, upsert: seq<Statement>, fill: Row, r: Option<Row>)
    requires guarded == [] || (|guarded| == 1 && (guarded[0].UpdateIf? || guarded[0].DeleteIf?))
    requires |upsert| == 1 && upsert[0].Upsert? && (guarded != [] ==> guarded[0].col in upsert[0].cols)
    requires fill.Keys == upsert[0].cols.Keys && (r.Some? ==> r.value.Keys == upsert[0].cols.Keys)
    ensures AllKeyed(guarded + upsert) && RowRun(guarded + upsert, fill, r) == Some(upsert[0].cols)
  {
    if guarded == [] {
      assert guarded + upsert == [upsert[0]];
      RunOne(upsert[0], fill, r);
      assert forall x: Row {:trigger x + upsert[0].cols} :: x.Keys == upsert[0].cols.Keys ==>
               x + upsert[0].cols == upsert[0].cols;
    } else {
      assert guarded + upsert == [guarded[0], upsert[0]];
      GuardedThenFull(guarded[0], upsert[0], fill, r);
    }
  }

  lemma GoldEffect(ex: ItemExchange, db: Db, e: Db)
    requires Complete(ex) && Explicit(ex) && DistinctIds(ex.materials)
    requires RunOps(db, ExchangeOps(ex)) == Some(e)
    ensures var k := Key(Player, ex.owner);
            GetRow(e, k) == Paid(ex, GetRow(db, k))
  {
    var k := Key(Player, ex.owner);
    GoldOnly(ex);
    RowAfter(db, ExchangeOps(ex), e, k, GoldOps(ex));
    GoldOpsPay(ex, Default(db, Player), GetRow(db, k));
  }

  lemma GoldOnly(ex: ItemExchange)
    requires Complete(ex) && Explicit(ex) && DistinctIds(ex.materials)
    ensures AllKeyed(ExchangeOps(ex)) && On(Key(Player, ex.owner), ExchangeOps(ex)) == GoldOps(ex)
  {
    var k := Key(Player, ex.owner);
    var guarded, upsert := OnExchangeShapes(ex, k);
    assert guarded + upsert == guarded;
    if ex.gold.Some? {
      OneOn(k, GoldOps(ex)[0]);
    }
  }

  lemma FrameEffect(ex: ItemExchange, db: Db, e: Db, k: Key)
    requires Complete(ex) && Explicit(ex) && DistinctIds(ex.materials)
    requires RunOps(db, ExchangeOps(ex)) == Some(e)
    requires Untouched(ex, k)
    ensures GetRow(e, k) == GetRow(db, k)
  {
    var guarded, upsert := OnExchangeShapes(ex, k);
    MaterialOnCases(ex.materials, k);
    if ex.gold.Some? {
      OneOn(k, GoldOps(ex)[0]);
    }
    RowByRow(db, ExchangeOps(ex), k);
    assert guarded + upsert == [];
  }

  // --------------------------------------------------------- a generated id

  function With(ex: ItemExchange, id: int): (named: ItemExchange)
    requires ex.result.Some?
  {
    ex.(result := Some((ex.result.value.0.(id := id), ex.result.value.1)))
  }

  /** The unit with the id that its result gets. */
  function Resolved(ex: ItemExchange, db: Db): (named: ItemExchange) {
    if Explicit(ex) then ex else With(ex, NextId(db, Item))
  }

  lemma WithKeepsColumns(ex: ItemExchange, id: int)
    requires Complete(ex) && ex.result.Some?
    ensures Complete(With(ex, id)) && GoldOps(With(ex, id)) == GoldOps(ex)
    ensures ItemColumns(With(ex, id).result.value.0, ex.result.value.1) ==
            ItemColumns(ex.result.value.0, ex.result.value.1)
  {
  }

  /** The item sequence one further. */
  function Moved(db: Tables): (e: Tables) {
    db.(sequences := db.sequences[Item := NextId(db, Item) + 1])
  }

  lemma MovedIs(a: Tables, b: Tables)
    requires b.defaults == a.defaults && b.sequences == Moved(a).sequences
    requires forall k :: GetRow(b, k) == GetRow(a, k)
    ensures b == Moved(a)
  {
    forall k
      ensures GetRow(b, k) == GetRow(Moved(a), k)
    {
      assert GetRow(Moved(a), k) == GetRow(a, k);
    }
    SameRows(b, Moved(a));
  }

  /** Generating a key is naming the next one and moving the sequence on. */
  lemma FreshIsNamed(db: Db, u: Op, f: Op)
    requires f.UpsertFresh? && f.table == Item && u == Upsert(ItemKey(NextId(db, Item)), f.cols)
    ensures Exec(db, u).Some? && Exec(db, f).Some?
    ensures Exec(db, u).value.sequences == db.sequences && Exec(db, f).value == Moved(Exec(db, u).value)
  {
    TargetRow(db, u);
    TargetRow(db, f);
    ExecSequences(db, u);
    ExecSequences(db, f);
    var named, made := Exec(db, u).value, Exec(db, f).value;
    forall k
      ensures GetRow(made, k) == GetRow(named, k)
    {
      ExecFrame(db, u, k);
      ExecFrame(db, f, k);
    }
    MovedIs(named, made);
  }

  lemma MovedRuns(db: Db, m: Db, ops: seq<Op>)
    requires AllKeyed(ops) && m == Moved(db)
    ensures RunOps(db, ops).Some? && RunOps(m, ops).Some?
    ensures RunOps(m, ops).value == Moved(RunOps(db, ops).value)
    ensures RunOps(db, ops).value.sequences == db.sequences
  {
    var k0 := ItemKey(0);
    RowByRow(db, ops, k0);
    RowByRow(m, ops, k0);
    var a, b := RunOps(db, ops).value, RunOps(m, ops).value;
    forall k
      ensures GetRow(b, k) == GetRow(a, k)
    {
      RowByRow(db, ops, k);
      RowByRow(m, ops, k);
      assert GetRow(m, k) == GetRow(db, k);
    }
    MovedIs(a, b);
  }

  lemma ResolvedRuns(ex: ItemExchange, db: Db)
    requires Complete(ex) && !Explicit(ex)
    ensures var named := With(ex, NextId(db, Item));
            && Complete(named) && Explicit(named)
            && var r, q := RunOps(db, ExchangeOps(named)), RunOps(db, ExchangeOps(ex));
               && r.Some? && r.value.sequences == db.sequences
               && q.Some? && q.value == Moved(r.value)
  {
    var id := NextId(db, Item);
    var cols := ItemColumns(ex.result.value.0, ex.result.value.1);
    WithKeepsColumns(ex, id);
    SequenceRises(db, Item);
    assert ExchangeOps(With(ex, id)) == MaterialOps(ex.materials) + [Upsert(ItemKey(id), cols)] + GoldOps(ex);
    assert ExchangeOps(ex) == MaterialOps(ex.materials) + [UpsertFresh(Item, cols)] + GoldOps(ex);
    ThreeParts(db, MaterialOps(ex.materials), Upsert(ItemKey(id), cols), UpsertFresh(Item, cols), GoldOps(ex));
  }

  lemma ThreeParts(db: Db, ms: seq<Op>, u: Op, f: Op, gold: seq<Op>)
    requires AllKeyed(ms) && AllKeyed(gold)
    requires f.UpsertFresh? && f.table == Item && u == Upsert(ItemKey(NextId(db, Item)), f.cols)
    ensures var r, q := RunOps(db, ms + [u] + gold), RunOps(db, ms + [f] + gold);
            && r.Some? && r.value.sequences == db.sequences
            && q.Some? && q.value == Moved(r.value)
  {
    RowByRow(db, ms, ItemKey(0));
    var d := RunOps(db, ms).value;
    FreshIsNamed(d, u, f);
    MovedRuns(Exec(d, u).value, Exec(d, f).value, gold);
    RunThree(db, ms, u, gold);
    RunThree(db, ms, f, gold);
  }

  lemma RunThree(db: Db, a: seq<Op>, op: Op, b: seq<Op>)
    ensures RunOps(db, a + [op] + b) == AndThen(Bind(Exec, RunOps(db, a), op), b)
  {
    RunOpsAppend(db, a + [op], b);
    RunOpsAppend(db, a, [op]);
    AndOne(RunOps(db, a), op);
  }

  /** The first application, over any database: a material whose guard matches
      has its declared count or is gone, one whose guard does not match keeps
      its row; the result's row, under its own id or the next generated one, is
      exactly what was declared no matter what the guards did; the gold follows
      its own guard; nothing else changes. */
  lemma ExchangeEffect(ex: ItemExchange, db: Db, e: Db)
    requires Complete(ex) && DistinctIds(ex.materials) && RunOps(db, ExchangeOps(ex)) == Some(e)
    ensures Complete(Resolved(ex, db)) && Applied(Resolved(ex, db), db, e)
    ensures NextId(e, Item) == NextId(db, Item) + if Explicit(ex) then 0 else 1
  {
    if Explicit(ex) {
      NamedEffect(ex, db, e);
      OnExchange(ex, ItemKey(0));
      RowByRow(db, ExchangeOps(ex), ItemKey(0));
    } else {
      var named := Resolved(ex, db);
      ResolvedRuns(ex, db);
      var d := RunOps(db, ExchangeOps(named)).value;
      NamedEffect(named, db, d);
      assert forall k :: GetRow(e, k) == GetRow(d, k);
    }
  }

  /** What the unit leaves at an item that is not its result. */
  lemma OtherItem(ex: ItemExchange, db: Db, e: Db, id: int)
    requires Complete(ex) && Applied(ex, db, e) && !IsResult(ex, id)
    ensures (forall i :: 0 <= i < |ex.materials| ==> ex.materials[i].id != id) ==>
              GetRow(e, ItemKey(id)) == GetRow(db, ItemKey(id))
    ensures forall i :: 0 <= i < |ex.materials| && ex.materials[i].id == id ==>
              GetRow(e, ItemKey(id)) == Consumed(GetRow(db, ItemKey(id)), ex.materials[i])
  {
    if forall i :: 0 <= i < |ex.materials| ==> ex.materials[i].id != id {
      assert Untouched(ex, ItemKey(id));
    }
  }

  lemma ResultThere(ex: ItemExchange, db: Db, e: Db)
    requires Complete(ex) && !Explicit(ex) && DistinctIds(ex.materials) && RunOps(db, ExchangeOps(ex)) == Some(e)
    ensures GetRow(e, ItemKey(NextId(db, Item))) == Some(ItemColumns(ex.result.value.0, ex.result.value.1))
    ensures NextId(e, Item) == NextId(db, Item) + 1
  {
    ExchangeEffect(ex, db, e);
    WithKeepsColumns(ex, NextId(db, Item));
  }

  /** The replay of a unit whose result has no id makes the item a second time,
      under the next id, over whatever held that id; the first one stays, unless
      the unit consumes it itself. */
  lemma FreshUnitDoubles(ex: ItemExchange, db: Db, e: Db, f: Db)
    requires Complete(ex) && !Explicit(ex) && DistinctIds(ex.materials)
    requires RunOps(db, ExchangeOps(ex)) == Some(e) && RunOps(e, ExchangeOps(ex)) == Some(f)
    ensures var row := Some(ItemColumns(ex.result.value.0, ex.result.value.1));
            var first, second := NextId(db, Item), NextId(e, Item);
            && second == first + 1
            && GetRow(e, ItemKey(first)) == row && GetRow(f, ItemKey(second)) == row
            && ((forall i :: 0 <= i < |ex.materials| ==> ex.materials[i].id != first) ==>
                 GetRow(f, ItemKey(first)) == row)
            && forall i :: 0 <= i < |ex.materials| && ex.materials[i].id == first ==>
                 GetRow(f, ItemKey(first)) == Consumed(row, ex.materials[i])
  {
    ResultThere(ex, db, e);
    ResultThere(ex, e, f);
    ExchangeEffect(ex, e, f);
    OtherItem(Resolved(ex, e), e, f, NextId(db, Item));
  }

  // ------------------------------------------------------------ safebox size

  /** Size 1 inserts unless the account has a row, any other size updates. */
  function SetSizeOp(account: int, size: int): (op: Op) {
    var cols: Row := map[Size := Number(size)];
    if size == 1 then InsertIfAbsent(Key(Safebox, account), cols) else Update(Key(Safebox, account), cols)
  }

  function SetSizeOps(account: int, sizes: seq<int>): (ops: seq<Op>)
    ensures |ops| == |sizes| && forall i :: 0 <= i < |sizes| ==> ops[i] == SetSizeOp(account, sizes[i])
    ensures AllUnguarded(ops)
  {
    seq(|sizes|, i requires 0 <= i < |sizes| => SetSizeOp(account, sizes[i]))
  }

  /** At least one update, then only inserts, at least one. */
  ghost predicate UpdatesThenInserts(sizes: seq<int>) {
    exists n :: SplitAt(sizes, n)
  }

  ghost predicate SplitAt(sizes: seq<int>, n: int) {
    && 0 < n < |sizes|
    && (forall i :: 0 <= i < n ==> sizes[i] != 1)
    && (forall i :: n <= i < |sizes| ==> sizes[i] == 1)
  }

  /** The last size other than 1. */
  function LastUpdate(sizes: seq<int>): (r: Option<int>)
    ensures r.None? <==> forall i :: 0 <= i < |sizes| ==> sizes[i] == 1
    ensures r.Some? ==> r.value != 1
  {
    if sizes == [] then None
    else
      var r := LastUpdate(sizes[1..]);
      if r.Some? then r else if sizes[0] != 1 then Some(sizes[0]) else None
  }

  function SizeRow(r: Option<int>): (row: Row) {
    if r.Some? then map[Size := Number(r.value)] else map[]
  }

  lemma {:induction false} WrittenSizes(account: int, sizes: seq<int>)
    ensures Written(SetSizeOps(account, sizes)) == SizeRow(LastUpdate(sizes))
    ensures !HasDelete(SetSizeOps(account, sizes))
  {
    if sizes != [] {
      WrittenSizes(account, sizes[1..]);
      assert SetSizeOps(account, sizes)[1..] == SetSizeOps(account, sizes[1..]);
    }
  }

  /** From no row: nothing until the first insert, then size 1 overwritten by
      the last later update. */
  lemma {:induction false} SizesOnAbsent(account: int, sizes: seq<int>, n: nat, fill: Row)
    requires n <= |sizes| && (forall i :: 0 <= i < n ==> sizes[i] != 1) && (n < |sizes| ==> sizes[n] == 1)
    ensures RowRun(SetSizeOps(account, sizes), fill, None) ==
            if n == |sizes| then None
            else Some(fill + map[Size := Number(1)] + SizeRow(LastUpdate(sizes[n..])))
  {
    var ops := SetSizeOps(account, sizes);
    if sizes != [] {
      assert ops[1..] == SetSizeOps(account, sizes[1..]);
      if n > 0 {
        SizesOnAbsent(account, sizes[1..], n - 1, fill);
        assert sizes[1..][n - 1..] == sizes[n..];
      } else {
        WrittenSizes(account, sizes[1..]);
        RunOnPresent(ops[1..], fill, fill + map[Size := Number(1)]);
        assert sizes[0..] == sizes;
        assert LastUpdate(sizes) == LastUpdate(sizes[1..]);
      }
    }
  }

  lemma {:induction false} LastUpdateSplit(sizes: seq<int>, n: nat)
    requires n <= |sizes|
    ensures LastUpdate(sizes) ==
            if LastUpdate(sizes[n..]).Some? then LastUpdate(sizes[n..]) else LastUpdate(sizes[..n])
  {
    if n == 0 {
      assert sizes[0..] == sizes;
    } else {
      LastUpdateSplit(sizes[1..], n - 1);
      assert sizes[1..][n - 1..] == sizes[n..];
      assert sizes[..n][1..] == sizes[1..][..n - 1];
    }
  }

  lemma FirstInsert(sizes: seq<int>) returns (n: nat)
    ensures n <= |sizes| && (forall i :: 0 <= i < n ==> sizes[i] != 1) && (n < |sizes| ==> sizes[n] == 1)
  {
    n := 0;
    while n < |sizes| && sizes[n] != 1
      invariant n <= |sizes| && forall i :: 0 <= i < n ==> sizes[i] != 1
    {
      n := n + 1;
    }
  }

  lemma NotSplit(sizes: seq<int>, n: nat)
    requires n < |sizes| && sizes[n] == 1 && (forall i :: 0 <= i < n ==> sizes[i] != 1)
    ensures UpdatesThenInserts(sizes) <==> n > 0 && LastUpdate(sizes[n..]).None?
  {
    if n > 0 && LastUpdate(sizes[n..]).None? {
      forall i | n <= i < |sizes|
        ensures sizes[i] == 1
      {
        assert sizes[n..][i - n] == 1;
      }
      assert SplitAt(sizes, n);
    }
    if UpdatesThenInserts(sizes) {
      var k :| SplitAt(sizes, k);
      assert sizes[k] == 1 && sizes[0] != 1;
      assert k == n;
    }
  }

  lemma NoInsertNoSplit(sizes: seq<int>)
    requires forall i :: 0 <= i < |sizes| ==> sizes[i] != 1
    ensures !UpdatesThenInserts(sizes)
  {
    forall k
      ensures !SplitAt(sizes, k)
    {
      assert 0 < k < |sizes| ==> sizes[k] != 1;
    }
  }

  /** After some updates and then inserts only, the replay lets the updates win
      over the inserted 1. */
  lemma SizesAbsentUnstable(account: int, sizes: seq<int>, fill: Row)
    requires UpdatesThenInserts(sizes)
    ensures var ops := SetSizeOps(account, sizes);
            RowRun(ops, fill, RowRun(ops, fill, None)) != RowRun(ops, fill, None)
  {
    var ops := SetSizeOps(account, sizes);
    var n := FirstInsert(sizes);
    if n == |sizes| {
      NoInsertNoSplit(sizes);
    } else {
      NotSplit(sizes, n);
      LastUpdateSplit(sizes, n);
      SizesOnAbsent(account, sizes, n, fill);
      WrittenSizes(account, sizes);
      var row := fill + map[Size := Number(1)] + map[];
      assert row[Size] == Number(1);
      RunOnPresent(ops, fill, row);
      assert sizes[..n][0] != 1;
      assert (row + SizeRow(LastUpdate(sizes)))[Size] != row[Size];
    }
  }

  lemma SizesRowStable(account: int, sizes: seq<int>, fill: Row)
    requires !UpdatesThenInserts(sizes)
    ensures RowStable(SetSizeOps(account, sizes), fill)
  {
    var ops := SetSizeOps(account, sizes);
    var n := FirstInsert(sizes);
    SizesOnAbsent(account, sizes, n, fill);
    if n < |sizes| {
      NotSplit(sizes, n);
      LastUpdateSplit(sizes, n);
      WrittenSizes(account, sizes);
      var row := RowRun(ops, fill, None).value;
      RunOnPresent(ops, fill, row);
      if LastUpdate(sizes[n..]).None? {
        assert sizes[..n] == [];
        assert row + map[] == row;
      }
      assert row + SizeRow(LastUpdate(sizes)) == row;
    }
    AbsentRowDecides(ops, fill);
  }

  lemma OnSizes(account: int, sizes: seq<int>, k: Key)
    ensures On(k, SetSizeOps(account, sizes)) ==
            if k == Key(Safebox, account) then SetSizeOps(account, sizes) else []
  {
    if k == Key(Safebox, account) {
      OnAll(k, SetSizeOps(account, sizes));
    } else {
      OnNothing(k, SetSizeOps(account, sizes));
    }
  }

  /** Each size statement alone is idempotent; a batch of them on one account
      is so exactly unless it is some updates followed by nothing but
      inserts, where the replay lets the updates win over the inserted 1. */
  lemma SetSizesExact(account: int, sizes: seq<int>)
    ensures StableOps(SetSizeOps(account, sizes)) <==> !UpdatesThenInserts(sizes)
  {
    var ops := SetSizeOps(account, sizes);
    var k := Key(Safebox, account);
    if !UpdatesThenInserts(sizes) {
      forall j: Key, fill: Row | fill.Keys == Columns(j.table)
        ensures TableStable(j.table, On(j, ops), fill)
      {
        OnSizes(account, sizes, j);
        SizesRowStable(account, sizes, fill);
      }
      RowsMakeStable(ops);
    } else if StableOps(ops) {
      StableMakesRows(ops, k, BlankRow(Safebox));
      OnSizes(account, sizes, k);
      SizesAbsentUnstable(account, sizes, BlankRow(Safebox));
    }
  }

  /** The concrete case: for an account without a row, size 4 then size 1 leaves
      size 1, and the replay leaves 4. */
  lemma SetSizeFourThenOne(account: int, db: Db)
    requires GetRow(db, Key(Safebox, account)) == None
    ensures var ops, k := SetSizeOps(account, [4, 1]), Key(Safebox, account);
            && var r := RunOps(db, ops);
            && r.Some? && GetRow(r.value, k).Some? && Matches(GetRow(r.value, k).value, Size, 1)
            && var q := RunOps(r.value, ops);
            && q.Some? && GetRow(q.value, k).Some? && Matches(GetRow(q.value, k).value, Size, 4)
  {
    var sizes, k, fill := [4, 1], Key(Safebox, account), Default(db, Safebox);
    var ops := SetSizeOps(account, sizes);
    assert sizes[1..] == [1];
    assert LastUpdate([1]) == None && LastUpdate(sizes) == Some(4);
    SizesOnAbsent(account, sizes, 1, fill);
    WrittenSizes(account, sizes);
    var row := fill + map[Size := Number(1)] + map[];
    RunOnPresent(ops, fill, row);
    OnSizes(account, sizes, k);
    RowByRow(db, ops, k);
    RowByRow(RunOps(db, ops).value, ops, k);
  }
}
