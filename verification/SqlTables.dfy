/** The durable SQL statements as operations on keyed tables, and when a batch
    of them may be applied a second time without effect. */
module SqlTables {
  import opened Common

  datatype Table = Item | Player | Safebox | Event

  /** The columns besides the key; `Field` numbers the columns of a player
      that no modelled statement names. */
  datatype Column =
    | Owner | Window | Pos | Count | Vnum | Socket(i: nat) | AttrType(i: nat) | AttrValue(i: nat)
    | Gold | Size | Password | Name | StartTs | EndTs | TriggerType | TriggerValue | Field(i: nat)

  const PLAYER_FIELDS := 47

  /** Every row of a table has exactly the table's columns. */
  function Columns(t: Table): (cs: set<Column>) {
    match t
    case Item => {Owner, Window, Pos, Count, Vnum} + (set i: nat | i < 3 :: Socket(i))
                 + (set i: nat | i < 7 :: AttrType(i)) + (set i: nat | i < 7 :: AttrValue(i))
    case Player => {Gold} + set i: nat | i < PLAYER_FIELDS :: Field(i)
    case Safebox => {Size, Password, Gold}
    case Event => {Name, StartTs, EndTs, TriggerType, TriggerValue}
  }

  datatype Value = Number(n: int) | Words(s: string)

  type Row = map<Column, Value>

  datatype Key = Key(table: Table, pk: int)

  /** Rows by primary key, the identity sequence of each table, and what an
      insert puts into the columns it does not name. */
  datatype Tables = Tables(rows: map<Key, Row>, sequences: map<Table, int>, defaults: map<Table, Row>)

  predicate RowTyped(d: Tables, k: Key) {
    k in d.rows ==> d.rows[k].Keys == Columns(k.table)
  }

  predicate SequenceTyped(d: Tables, t: Table) {
    t in d.sequences ==> d.sequences[t] >= 1
  }

  predicate DefaultTyped(d: Tables, t: Table) {
    t in d.defaults && d.defaults[t].Keys == Columns(t)
  }

  ghost predicate Typed(d: Tables) {
    && (forall k :: RowTyped(d, k))
    && (forall t :: SequenceTyped(d, t))
    && (forall t :: DefaultTyped(d, t))
  }

  function BlankRow(t: Table): (r: Row)
    ensures r.Keys == Columns(t)
  {
    map c | c in Columns(t) :: Number(0)
  }

  function Blank(): (d: map<Table, Row>)
    ensures forall t: Table :: t in d && d[t].Keys == Columns(t)
  {
    map t: Table | true :: BlankRow(t)
  }

  /** A database with the schema's columns; its checks of the values are not
      part of the model. */
  type Db = d: Tables | Typed(d) witness Tables(map[], map[], Blank())

  datatype Statement =
    | Update(key: Key, cols: Row)                            // UPDATE .. WHERE pk
    | Upsert(key: Key, cols: Row)                            // ON CONFLICT DO UPDATE
    | InsertIfAbsent(key: Key, cols: Row)                    // ON CONFLICT DO NOTHING
    | Delete(key: Key)
    | UpdateIf(key: Key, col: Column, pre: int, post: int)   // .. AND col = pre
    | DeleteIf(key: Key, col: Column, pre: int)
    | UpsertFresh(table: Table, cols: Row)                   // identity key, ON CONFLICT DO UPDATE
    | InsertFresh(table: Table, cols: Row)                   // identity key, no conflict clause

  /** Statements that name their row. */
  predicate Keyed(op: Statement) {
    !op.UpsertFresh? && !op.InsertFresh?
  }

  function TableOf(op: Statement): (t: Table) {
    if Keyed(op) then op.key.table else op.table
  }

  /** The statement names columns of its table only. */
  predicate WellTyped(op: Statement) {
    match op
    case Delete(_) => true
    case UpdateIf(k, col, _, _) => col in Columns(k.table)
    case DeleteIf(k, col, _) => col in Columns(k.table)
    case _ => op.cols.Keys <= Columns(TableOf(op))
  }

  type Op = o: Statement | WellTyped(o) witness Delete(Key(Item, 0))

  function GetRow(db: Tables, k: Key): (r: Option<Row>) {
    if k in db.rows then Some(db.rows[k]) else None
  }

  lemma RowFits(db: Db, k: Key)
    ensures Fits(k.table, GetRow(db, k))
  {
    assert RowTyped(db, k);
  }

  function Default(db: Db, t: Table): (r: Row) {
    assert DefaultTyped(db, t);
    db.defaults[t]
  }

  lemma DefaultFits(db: Db, t: Table)
    ensures Default(db, t).Keys == Columns(t)
  {
    assert DefaultTyped(db, t);
  }

  predicate Fits(t: Table, r: Option<Row>) {
    r.Some? ==> r.value.Keys == Columns(t)
  }

  function SetRow(db: Db, k: Key, r: Option<Row>): (e: Db)
    requires Fits(k.table, r)
    ensures GetRow(e, k) == r
    ensures forall j :: j != k ==> GetRow(e, j) == GetRow(db, j)
    ensures e.sequences == db.sequences && e.defaults == db.defaults
  {
    var rows := match r
                case Some(row) => db.rows[k := row]
                case None => db.rows - {k};
    TypedAgain(db, db.(rows := rows), k);
    db.(rows := rows)
  }

  /** One row may change, and the sequences may move up. */
  lemma TypedAgain(d: Db, e: Tables, k: Key)
    requires e.defaults == d.defaults && RowTyped(e, k)
    requires forall j :: j != k ==> GetRow(e, j) == GetRow(d, j)
    requires forall t :: t in e.sequences ==> NextOf(e.sequences, t) >= NextOf(d.sequences, t)
    ensures Typed(e)
  {
    forall j
      ensures RowTyped(e, j)
    {
      assert RowTyped(d, j);
      assert j != k ==> GetRow(e, j) == GetRow(d, j);
    }
    forall t
      ensures SequenceTyped(e, t) && DefaultTyped(e, t)
    {
      assert SequenceTyped(d, t) && DefaultTyped(d, t);
    }
  }

  predicate Matches(row: Row, col: Column, pre: int) {
    col in row && row[col] == Number(pre)
  }

  /** A database with one row at most, and given defaults for its table. */
  function Single(k: Key, fill: Row, r: Option<Row>): (db: Db)
    requires fill.Keys == Columns(k.table) && Fits(k.table, r)
    ensures GetRow(db, k) == r && Default(db, k.table) == fill
    ensures r.None? ==> db.rows == map[]
  {
    var none := Tables(map[], map[], Blank()[k.table := fill]);
    assert forall t :: DefaultTyped(none, t);
    if r.None? then none else SetRow(none, k, r)
  }

  /** What a keyed statement makes of its row. */
  function RowOp(op: Statement, fill: Row, r: Option<Row>): (q: Option<Row>)
    requires Keyed(op)
  {
    match op
    case Update(_, cols) => if r.Some? then Some(r.value + cols) else None
    case Upsert(_, cols) => if r.Some? then Some(r.value + cols) else Some(fill + cols)
    case InsertIfAbsent(_, cols) => if r.Some? then r else Some(fill + cols)
    case Delete(_) => None
    case UpdateIf(_, col, pre, post) =>
      if r.Some? && Matches(r.value, col, pre) then Some(r.value[col := Number(post)]) else r
    case DeleteIf(_, col, pre) => if r.Some? && Matches(r.value, col, pre) then None else r
  }

  lemma RowOpFits(op: Op, fill: Row, r: Option<Row>)
    requires Keyed(op) && fill.Keys == Columns(op.key.table) && Fits(op.key.table, r)
    ensures Fits(op.key.table, RowOp(op, fill, r))
  {
  }

  function NextOf(sequences: map<Table, int>, t: Table): (id: int) {
    if t in sequences then sequences[t] else 1
  }

  function NextId(db: Tables, t: Table): (id: int)
  {
    NextOf(db.sequences, t)
  }

  /** The row with the next key of a sequence is written, and the sequence
      moves on. */
  function WriteFresh(db: Db, t: Table, cols: Row): (e: Db)
    requires cols.Keys <= Columns(t)
    ensures NextId(e, t) == NextId(db, t) + 1
  {
    var k := Key(t, NextId(db, t));
    RowFits(db, k);
    DefaultFits(db, t);
    var d := SetRow(db, k, Some((if k in db.rows then db.rows[k] else Default(db, t)) + cols));
    var e := d.(sequences := db.sequences[t := NextId(db, t) + 1]);
    SequenceRises(db, t);
    TypedAgain(d, e, k);
    e
  }

  lemma SequenceRises(db: Db, t: Table)
    ensures NextId(db, t) >= 1
  {
    assert SequenceTyped(db, t);
  }

  /** One statement; a plain insert is rejected when its identity key is
      taken. */
  function Exec(db: Db, op: Op): (r: Option<Db>) {
    if Keyed(op) then
      RowFits(db, op.key);
      DefaultFits(db, op.key.table);
      RowOpFits(op, Default(db, op.key.table), GetRow(db, op.key));
      Some(SetRow(db, op.key, RowOp(op, Default(db, op.key.table), GetRow(db, op.key))))
    else if op.InsertFresh? && Key(op.table, NextId(db, op.table)) in db.rows then None
    else Some(WriteFresh(db, op.table, op.cols))
  }

  /** Generated ids count from one. */
  lemma FreshIds(db: Db, t: Table, cols: Row, n: nat)
    requires cols.Keys <= Columns(t) && Key(t, n + 1) !in db.rows
    requires if n == 0 then t !in db.sequences else t in db.sequences && db.sequences[t] == n + 1
    ensures var r := Exec(db, InsertFresh(t, cols));
            && r.Some? && t in r.value.sequences && r.value.sequences[t] == n + 2
            && Key(t, n + 1) in r.value.rows && r.value.rows[Key(t, n + 1)] == Default(db, t) + cols
  {
    var e := WriteFresh(db, t, cols);
    assert GetRow(e, Key(t, n + 1)) == Some(Default(db, t) + cols);
  }

  function RunOps(db: Db, ops: seq<Op>): (r: Option<Db>)
    decreases |ops|
  {
    if ops == [] then Some(db)
    else match Exec(db, ops[0])
         case Some(e) => RunOps(e, ops[1..])
         case None => None
  }

  /** Applying the batch again changes nothing, over every database. */
  ghost predicate StableOps(ops: seq<Op>) {
    forall db: Db, e: Db :: RunOps(db, ops) == Some(e) ==> RunOps(e, ops) == Some(e)
  }

  // ------------------------------------------------------------ row by row

  predicate AllKeyed(ops: seq<Statement>) {
    forall i :: 0 <= i < |ops| ==> Keyed(ops[i])
  }

  function RowRun(ops: seq<Statement>, fill: Row, r: Option<Row>): (q: Option<Row>)
    requires AllKeyed(ops)
  {
    if ops == [] then r else RowRun(ops[1..], fill, RowOp(ops[0], fill, r))
  }

  /** The statements of the batch that touch one row. */
  function On(k: Key, ops: seq<Statement>): (r: seq<Statement>)
    requires AllKeyed(ops)
    ensures AllKeyed(r) && forall i :: 0 <= i < |r| ==> r[i].key == k && r[i] in ops
  {
    if ops == [] then []
    else if ops[0].key == k then [ops[0]] + On(k, ops[1..])
    else On(k, ops[1..])
  }

  /** Rows do not influence each other: every row ends as its own statements
      make it, and such a batch is never rejected. */
  lemma {:induction false} RowByRow(db: Db, ops: seq<Op>, k: Key)
    requires AllKeyed(ops)
    ensures var r := RunOps(db, ops);
            && r.Some?
            && r.value.sequences == db.sequences && r.value.defaults == db.defaults
            && GetRow(r.value, k) == RowRun(On(k, ops), Default(db, k.table), GetRow(db, k))
    decreases |ops|
  {
    if ops != [] {
      RowByRow(Exec(db, ops[0]).value, ops[1..], k);
      if ops[0].key == k {
        assert ([ops[0]] + On(k, ops[1..]))[1..] == On(k, ops[1..]);
      }
    }
  }

  lemma SameRows(a: Tables, b: Tables)
    requires a.sequences == b.sequences && a.defaults == b.defaults
    requires forall k :: GetRow(a, k) == GetRow(b, k)
    ensures a == b
  {
    forall k
      ensures k in a.rows <==> k in b.rows
      ensures k in a.rows ==> a.rows[k] == b.rows[k]
    {
      assert GetRow(a, k) == GetRow(b, k);
    }
    assert a.rows == b.rows;
  }

  /** Doing it twice is doing it once, at one row. */
  ghost predicate RowStable(ops: seq<Statement>, fill: Row)
    requires AllKeyed(ops)
  {
    forall r :: RowRun(ops, fill, RowRun(ops, fill, r)) == RowRun(ops, fill, r)
  }

  /** The same at the rows of one table. */
  ghost predicate TableStable(t: Table, ops: seq<Statement>, fill: Row)
    requires AllKeyed(ops)
  {
    forall r :: Fits(t, r) ==> RowRun(ops, fill, RowRun(ops, fill, r)) == RowRun(ops, fill, r)
  }

  ghost predicate EveryRowStable(ops: seq<Statement>)
    requires AllKeyed(ops)
  {
    forall k: Key, fill: Row :: fill.Keys == Columns(k.table) ==> TableStable(k.table, On(k, ops), fill)
  }

  lemma RowsMakeStable(ops: seq<Op>)
    requires AllKeyed(ops) && EveryRowStable(ops)
    ensures StableOps(ops)
  {
    forall db: Db, e: Db | RunOps(db, ops) == Some(e)
      ensures RunOps(e, ops) == Some(e)
    {
      var k0 := Key(Item, 0);
      RowByRow(db, ops, k0);
      RowByRow(e, ops, k0);
      var f := RunOps(e, ops).value;
      forall k
        ensures GetRow(f, k) == GetRow(e, k)
      {
        RowByRow(db, ops, k);
        RowByRow(e, ops, k);
        RowFits(db, k);
        DefaultFits(db, k.table);
        assert TableStable(k.table, On(k, ops), Default(db, k.table));
      }
      SameRows(f, e);
    }
  }

  lemma StableMakesRows(ops: seq<Op>, k: Key, fill: Row)
    requires AllKeyed(ops) && StableOps(ops) && fill.Keys == Columns(k.table)
    ensures TableStable(k.table, On(k, ops), fill)
  {
    forall r | Fits(k.table, r)
      ensures RowRun(On(k, ops), fill, RowRun(On(k, ops), fill, r)) == RowRun(On(k, ops), fill, r)
    {
      var db := Single(k, fill, r);
      RowByRow(db, ops, k);
      var e := RunOps(db, ops).value;
      RowByRow(e, ops, k);
    }
  }

  /** A batch of statements that name their rows is replay-stable exactly when
      it is so at each row. */
  lemma StableExactlyByRow(ops: seq<Op>)
    requires AllKeyed(ops)
    ensures StableOps(ops) <==> EveryRowStable(ops)
  {
    if EveryRowStable(ops) {
      RowsMakeStable(ops);
    }
    if StableOps(ops) {
      forall k: Key, fill: Row | fill.Keys == Columns(k.table)
        ensures TableStable(k.table, On(k, ops), fill)
      {
        StableMakesRows(ops, k, fill);
      }
    }
  }

  // ------------------------------------------------- statements without guard

  predicate Unguarded(op: Statement) {
    Keyed(op) && !op.UpdateIf? && !op.DeleteIf?
  }

  predicate AllUnguarded(ops: seq<Statement>) {
    forall i :: 0 <= i < |ops| ==> Unguarded(ops[i])
  }

  lemma {:induction false} RowRunAppend(a: seq<Statement>, b: seq<Statement>, fill: Row, r: Option<Row>)
    requires AllKeyed(a) && AllKeyed(b)
    ensures AllKeyed(a + b) && RowRun(a + b, fill, r) == RowRun(b, fill, RowRun(a, fill, r))
  {
    if a == [] {
      assert a + b == b;
    } else {
      assert (a + b)[0] == a[0] && (a + b)[1..] == a[1..] + b;
      RowRunAppend(a[1..], b, fill, RowOp(a[0], fill, r));
    }
  }

  predicate HasDelete(ops: seq<Statement>) {
    exists i :: 0 <= i < |ops| && ops[i].Delete?
  }

  /** Everything updates and upserts write, the later statement winning. */
  function Written(ops: seq<Statement>): (c: Row) {
    if ops == [] then map[]
    else (if ops[0].Update? || ops[0].Upsert? then ops[0].cols else map[]) + Written(ops[1..])
  }

  lemma {:induction false} RunOnPresent(ops: seq<Statement>, fill: Row, row: Row)
    requires AllUnguarded(ops) && !HasDelete(ops)
    ensures RowRun(ops, fill, Some(row)) == Some(row + Written(ops))
  {
    if ops == [] {
      assert row + map[] == row;
    } else {
      assert !ops[0].Delete?;
      forall i | 0 <= i < |ops[1..]|
        ensures !ops[1..][i].Delete?
      {
        assert ops[1..][i] == ops[i + 1];
      }
      var c: Row := if ops[0].Update? || ops[0].Upsert? then ops[0].cols else map[];
      RunOnPresent(ops[1..], fill, row + c);
      assert row + map[] == row;
      assert row + c + Written(ops[1..]) == row + (c + Written(ops[1..]));
    }
  }

  /** A batch with a delete forgets what was there. */
  lemma {:induction false} DeleteForgets(ops: seq<Statement>, fill: Row, r: Option<Row>, q: Option<Row>)
    requires AllKeyed(ops) && HasDelete(ops)
    ensures RowRun(ops, fill, r) == RowRun(ops, fill, q)
  {
    if !ops[0].Delete? {
      var i :| 0 <= i < |ops| && ops[i].Delete?;
      assert ops[1..][i - 1].Delete?;
      DeleteForgets(ops[1..], fill, RowOp(ops[0], fill, r), RowOp(ops[0], fill, q));
    }
  }

  /** Without guards, one row decides for all: stable at the absent row,
      stable at every row. */
  lemma AbsentRowDecides(ops: seq<Statement>, fill: Row)
    requires AllUnguarded(ops)
    requires RowRun(ops, fill, RowRun(ops, fill, None)) == RowRun(ops, fill, None)
    ensures RowStable(ops, fill)
  {
    forall r
      ensures RowRun(ops, fill, RowRun(ops, fill, r)) == RowRun(ops, fill, r)
    {
      if HasDelete(ops) {
        DeleteForgets(ops, fill, RowRun(ops, fill, r), r);
      } else if r.Some? {
        RunOnPresent(ops, fill, r.value);
        RunOnPresent(ops, fill, r.value + Written(ops));
        assert r.value + Written(ops) + Written(ops) == r.value + Written(ops);
      }
    }
  }

  lemma {:induction false} OnUnguarded(k: Key, ops: seq<Statement>)
    requires AllUnguarded(ops)
    ensures AllUnguarded(On(k, ops))
  {
  }

  ghost predicate StableOnEmpty(ops: seq<Op>) {
    forall db: Db, e: Db :: db.rows == map[] && RunOps(db, ops) == Some(e) ==> RunOps(e, ops) == Some(e)
  }

  lemma EmptyMakesRows(ops: seq<Op>, k: Key, fill: Row)
    requires AllUnguarded(ops) && StableOnEmpty(ops) && fill.Keys == Columns(k.table)
    ensures RowStable(On(k, ops), fill)
  {
    var db := Single(k, fill, None);
    RowByRow(db, ops, k);
    var e := RunOps(db, ops).value;
    RowByRow(e, ops, k);
    OnUnguarded(k, ops);
    AbsentRowDecides(On(k, ops), fill);
  }

  /** An unguarded batch is replay-stable over every database exactly when it
      is so over the databases without rows. */
  lemma EmptyDatabaseDecides(ops: seq<Op>)
    requires AllUnguarded(ops)
    ensures StableOps(ops) <==> StableOnEmpty(ops)
  {
    if StableOnEmpty(ops) {
      forall k: Key, fill: Row | fill.Keys == Columns(k.table)
        ensures TableStable(k.table, On(k, ops), fill)
      {
        EmptyMakesRows(ops, k, fill);
      }
      RowsMakeStable(ops);
    }
  }

  // ------------------------------------------------------ classes of batches

  /** Only updates and upserts, and each upsert writes every column that any
      of them writes. */
  ghost predicate WideUpserts(ops: seq<Statement>) {
    && (forall i :: 0 <= i < |ops| ==> ops[i].Update? || ops[i].Upsert?)
    && (forall i, j :: 0 <= i < |ops| && 0 <= j < |ops| && ops[j].Upsert? ==> ops[i].cols.Keys <= ops[j].cols.Keys)
  }

  lemma {:induction false} AbsentUntilUpsert(ops: seq<Statement>, fill: Row, row: Row)
    requires WideUpserts(ops) && AllUnguarded(ops)
    requires RowRun(ops, fill, None) == Some(row)
    ensures row + Written(ops) == row
  {
    assert AllUnguarded(ops[1..]);
    if ops[0].Upsert? {
      NoDelete(ops[1..]);
      RunOnPresent(ops[1..], fill, fill + ops[0].cols);
      assert row == fill + ops[0].cols + Written(ops[1..]);
    } else {
      assert WideUpserts(ops[1..]);
      AbsentUntilUpsert(ops[1..], fill, row);
      UpsertPresent(ops[1..], fill);
      var j :| 0 <= j < |ops[1..]| && ops[1..][j].Upsert?;
      assert ops[j + 1].Upsert? && ops[0].cols.Keys <= ops[j + 1].cols.Keys;
      WrittenCovers(ops[1..], j);
      assert ops[0].cols + Written(ops[1..]) == Written(ops[1..]);
    }
  }

  lemma NoDelete(ops: seq<Statement>)
    requires forall i :: 0 <= i < |ops| ==> ops[i].Update? || ops[i].Upsert?
    ensures !HasDelete(ops)
  {
  }

  lemma {:induction false} UpsertPresent(ops: seq<Statement>, fill: Row)
    requires AllKeyed(ops) && RowRun(ops, fill, None).Some?
    requires forall i :: 0 <= i < |ops| ==> ops[i].Update? || ops[i].Upsert?
    ensures exists j :: 0 <= j < |ops| && ops[j].Upsert?
  {
    if ops != [] && !ops[0].Upsert? {
      UpsertPresent(ops[1..], fill);
      var j :| 0 <= j < |ops[1..]| && ops[1..][j].Upsert?;
      assert ops[j + 1].Upsert?;
    }
  }

  lemma {:induction false} WrittenCovers(ops: seq<Statement>, j: nat)
    requires j < |ops| && (ops[j].Update? || ops[j].Upsert?)
    ensures ops[j].cols.Keys <= Written(ops).Keys
  {
    if j > 0 {
      assert ops[1..][j - 1] == ops[j];
      WrittenCovers(ops[1..], j - 1);
    }
  }

  /** Absolute updates and upserts in any mix are stable when the upserts
      write every column the updates write. */
  lemma WideUpsertsStable(ops: seq<Statement>, fill: Row)
    requires AllUnguarded(ops) && WideUpserts(ops)
    ensures RowStable(ops, fill)
  {
    var r := RowRun(ops, fill, None);
    if r.Some? {
      NoDelete(ops);
      AbsentUntilUpsert(ops, fill, r.value);
      RunOnPresent(ops, fill, r.value);
    }
    AbsentRowDecides(ops, fill);
  }

  /** Inserts that do nothing on conflict are stable. */
  lemma {:induction false} InsertsIfAbsentStable(ops: seq<Statement>, fill: Row)
    requires forall i :: 0 <= i < |ops| ==> ops[i].InsertIfAbsent?
    ensures RowStable(ops, fill)
  {
    forall row: Row
      ensures RowRun(ops, fill, Some(row)) == Some(row)
    {
      InsertsKeep(ops, fill, row);
    }
    forall r
      ensures RowRun(ops, fill, RowRun(ops, fill, r)) == RowRun(ops, fill, r)
    {
      if r.None? && ops != [] {
        InsertsKeep(ops[1..], fill, fill + ops[0].cols);
      }
    }
  }

  lemma {:induction false} InsertsKeep(ops: seq<Statement>, fill: Row, row: Row)
    requires forall i :: 0 <= i < |ops| ==> ops[i].InsertIfAbsent?
    ensures RowRun(ops, fill, Some(row)) == Some(row)
  {
    if ops != [] {
      InsertsKeep(ops[1..], fill, row);
    }
  }

  /** Guarded statements on one column, each starting from the value the one
      before it leaves. */
  ghost predicate Chain(ops: seq<Statement>, col: Column) {
    && (forall i :: 0 <= i < |ops| ==> (ops[i].UpdateIf? || ops[i].DeleteIf?) && ops[i].col == col)
    && (forall i :: 0 <= i < |ops| - 1 ==> ops[i].UpdateIf? && ops[i].post == ops[i + 1].pre)
  }

  lemma ChainTail(ops: seq<Statement>, col: Column)
    requires Chain(ops, col) && ops != []
    ensures Chain(ops[1..], col)
  {
    forall i | 0 <= i < |ops[1..]| - 1
      ensures ops[1..][i].UpdateIf? && ops[1..][i].post == ops[1..][i + 1].pre
    {
      assert ops[1..][i] == ops[i + 1] && ops[1..][i + 1] == ops[i + 2];
    }
  }

  /** What a whole chain makes of a row that passes its first guard. */
  function ChainEnd(ops: seq<Statement>, row: Row): (r: Option<Row>)
    requires ops != []
  {
    var last := ops[|ops| - 1];
    if last.UpdateIf? then Some(row[last.col := Number(last.post)]) else None
  }

  lemma {:induction false} ChainFires(ops: seq<Statement>, col: Column, fill: Row, row: Row)
    requires Chain(ops, col) && ops != [] && Matches(row, col, ops[0].pre)
    ensures RowRun(ops, fill, Some(row)) == ChainEnd(ops, row)
  {
    if |ops| > 1 {
      ChainTail(ops, col);
      var next := row[col := Number(ops[0].post)];
      ChainFires(ops[1..], col, fill, next);
      assert ops[1..][|ops[1..]| - 1] == ops[|ops| - 1];
      assert forall n :: next[col := Number(n)] == row[col := Number(n)];
    }
  }

  /** A chain leaves a row alone, or takes it all the way to its end. */
  lemma {:induction false} ChainAllOrNothing(ops: seq<Statement>, col: Column, fill: Row, row: Row)
    requires Chain(ops, col)
    ensures RowRun(ops, fill, Some(row)) == Some(row)
         || (ops != [] && RowRun(ops, fill, Some(row)) == ChainEnd(ops, row))
  {
    if ops != [] {
      if Matches(row, col, ops[0].pre) {
        ChainFires(ops, col, fill, row);
      } else {
        ChainTail(ops, col);
        ChainAllOrNothing(ops[1..], col, fill, row);
        assert |ops| > 1 ==> ops[1..][|ops[1..]| - 1] == ops[|ops| - 1];
      }
    }
  }

  lemma {:induction false} ChainOnAbsent(ops: seq<Statement>, col: Column, fill: Row)
    requires Chain(ops, col)
    ensures RowRun(ops, fill, None) == None
  {
    if ops != [] {
      ChainTail(ops, col);
      ChainOnAbsent(ops[1..], col, fill);
    }
  }

  lemma SetTwice(row: Row, col: Column, v: Value)
    ensures row[col := v][col := v] == row[col := v]
  {
  }

  /** A linked chain of guarded statements is stable at every row, whether or
      not its guards match. */
  lemma ChainStable(ops: seq<Statement>, col: Column, fill: Row)
    requires Chain(ops, col)
    ensures RowStable(ops, fill)
  {
    forall r
      ensures RowRun(ops, fill, RowRun(ops, fill, r)) == RowRun(ops, fill, r)
    {
      ChainOnAbsent(ops, col, fill);
      if r.Some? {
        ChainAllOrNothing(ops, col, fill, r.value);
        var q := RowRun(ops, fill, r);
        if q.Some? {
          ChainAllOrNothing(ops, col, fill, q.value);
          if ops != [] && ops[|ops| - 1].UpdateIf? {
            SetTwice(r.value, col, Number(ops[|ops| - 1].post));
            SetTwice(q.value, col, Number(ops[|ops| - 1].post));
          }
        }
      }
    }
  }

  // ------------------------------------------------------------ fresh keys

  function FreshCount(ops: seq<Op>, t: Table): (n: nat) {
    if ops == [] then 0
    else (if !Keyed(ops[0]) && ops[0].table == t then 1 else 0) + FreshCount(ops[1..], t)
  }

  lemma {:induction false} SequenceAdvances(db: Db, ops: seq<Op>, e: Db, t: Table)
    requires RunOps(db, ops) == Some(e)
    ensures NextId(e, t) == NextId(db, t) + FreshCount(ops, t)
    decreases |ops|
  {
    if ops != [] {
      SequenceAdvances(Exec(db, ops[0]).value, ops[1..], e, t);
    }
  }

  /** What a statement with a generated key does when it is accepted: the next
      key has a row with its columns, over the row that held the key or else
      over the defaults, and the sequence has moved on. */
  predicate FreshStep(db: Db, op: Statement, e: Db)
    requires !Keyed(op)
  {
    var t := op.table;
    var k := Key(t, NextId(db, t));
    && (op.InsertFresh? ==> k !in db.rows)
    && e.defaults == db.defaults && NextId(e, t) == NextId(db, t) + 1
    && e.rows == db.rows[k := (if k in db.rows then db.rows[k] else Default(db, t)) + op.cols]
  }

  lemma FreshEffect(db: Db, op: Op)
    requires !Keyed(op)
    ensures match Exec(db, op)
            case None => op.InsertFresh? && Key(op.table, NextId(db, op.table)) in db.rows
            case Some(e) => FreshStep(db, op, e)
  {
  }

  /** A statement with a generated key, twice: the first row is left as it was
      and a second key is written. If that key was free there is one row more,
      equal to the first if that was new too; if not, the row that held it is
      overwritten. */
  predicate Doubled(db: Db, op: Statement, e: Db, f: Db)
    requires !Keyed(op)
  {
    var t := op.table;
    var first, second := Key(t, NextId(db, t)), Key(t, NextId(e, t));
    && first != second && first in e.rows && first in f.rows && f.rows[first] == e.rows[first]
    && second in f.rows
    && (if second in e.rows then !op.InsertFresh? && f.rows[second] == e.rows[second] + op.cols
        else f.rows[second] == Default(db, t) + op.cols && |f.rows| == |e.rows| + 1
             && (first !in db.rows ==> f.rows[second] == f.rows[first]))
  }

  lemma TwoFreshSteps(db: Db, op: Statement, e: Db, f: Db)
    requires !Keyed(op) && FreshStep(db, op, e) && FreshStep(e, op, f)
    ensures Doubled(db, op, e, f)
  {
    var second := Key(op.table, NextId(e, op.table));
    if second !in e.rows {
      assert f.rows.Keys == e.rows.Keys + {second};
      assert |f.rows.Keys| == |e.rows.Keys| + 1;
    }
  }

  /** Applying it a second time doubles the row, or is rejected: a plain insert
      whose next key is taken. */
  lemma FreshReplay(db: Db, op: Op, e: Db)
    requires !Keyed(op) && Exec(db, op) == Some(e)
    ensures match Exec(e, op)
            case None => op.InsertFresh? && Key(op.table, NextId(e, op.table)) in e.rows
            case Some(f) => Doubled(db, op, e, f)
  {
    FreshEffect(db, op);
    FreshEffect(e, op);
    match Exec(e, op)
    case None =>
    case Some(f) => TwoFreshSteps(db, op, e, f);
  }

  /** A batch that takes a key from a sequence never has a silent replay: over
      no database at all. */
  lemma FreshNeverStable(db: Db, ops: seq<Op>, e: Db, i: nat)
    requires i < |ops| && !Keyed(ops[i]) && RunOps(db, ops) == Some(e)
    ensures RunOps(e, ops) != Some(e)
  {
    FreshCounted(ops, i);
    if RunOps(e, ops) == Some(e) {
      SequenceAdvances(e, ops, e, ops[i].table);
    }
  }

  lemma {:induction false} FreshCounted(ops: seq<Op>, i: nat)
    requires i < |ops| && !Keyed(ops[i])
    ensures FreshCount(ops, ops[i].table) >= 1
  {
    if i > 0 {
      assert ops[1..][i - 1] == ops[i];
      FreshCounted(ops[1..], i - 1);
    }
  }

  // --------------------------------------------------------- disjoint batches

  lemma {:induction false} OnNothing(k: Key, ops: seq<Statement>)
    requires AllKeyed(ops) && forall i :: 0 <= i < |ops| ==> ops[i].key != k
    ensures On(k, ops) == []
  {
    if ops != [] {
      OnNothing(k, ops[1..]);
    }
  }

  lemma {:induction false} OnAll(k: Key, ops: seq<Statement>)
    requires AllKeyed(ops) && forall i :: 0 <= i < |ops| ==> ops[i].key == k
    ensures On(k, ops) == ops
  {
    if ops != [] {
      OnAll(k, ops[1..]);
    }
  }

  function AndThen(r: Option<Db>, ops: seq<Op>): (q: Option<Db>) {
    match r
    case Some(e) => RunOps(e, ops)
    case None => None
  }

  lemma {:induction false} RunOpsAppend(db: Db, a: seq<Op>, b: seq<Op>)
    ensures RunOps(db, a + b) == AndThen(RunOps(db, a), b)
    decreases |a|
  {
    if a == [] {
      assert a + b == b;
    } else {
      assert (a + b)[0] == a[0] && (a + b)[1..] == a[1..] + b;
      match Exec(db, a[0])
      case Some(e) => RunOpsAppend(e, a[1..], b);
      case None =>
    }
  }

  /** Different rows; a statement with a generated key may touch any row of its
      table. */
  predicate Apart(a: Op, b: Op) {
    if Keyed(a) && Keyed(b) then a.key != b.key else TableOf(a) != TableOf(b)
  }

  ghost predicate Disjoint(a: seq<Op>, b: seq<Op>) {
    forall i, j :: 0 <= i < |a| && 0 <= j < |b| ==> Apart(a[i], b[j])
  }

  /** The row a statement writes. */
  function Target(db: Db, op: Op): (k: Key)
    ensures k.table == TableOf(op)
  {
    if Keyed(op) then op.key else Key(op.table, NextId(db, op.table))
  }

  /** A statement looks at its own row and sequence only. */
  lemma ExecLocal(db: Db, e: Db, op: Op)
    requires e.defaults == db.defaults && NextId(e, TableOf(op)) == NextId(db, TableOf(op))
    requires GetRow(e, Target(db, op)) == GetRow(db, Target(db, op))
    ensures Exec(e, op).Some? <==> Exec(db, op).Some?
    ensures Exec(db, op).Some? ==>
              GetRow(Exec(e, op).value, Target(db, op)) == GetRow(Exec(db, op).value, Target(db, op))
  {
  }

  lemma TargetRow(db: Db, op: Op)
    requires Exec(db, op).Some?
    ensures var k := Target(db, op);
            GetRow(Exec(db, op).value, k) ==
            if Keyed(op) then RowOp(op, Default(db, k.table), GetRow(db, k))
            else Some((if GetRow(db, k).Some? then GetRow(db, k).value else Default(db, k.table)) + op.cols)
  {
  }

  /** And leaves the other rows alone. */
  lemma ExecFrame(db: Db, op: Op, k: Key)
    requires Exec(db, op).Some?
    ensures k != Target(db, op) ==> GetRow(Exec(db, op).value, k) == GetRow(db, k)
  {
  }

  /** What it does to the sequences. */
  function Bumped(sequences: map<Table, int>, op: Statement): (q: map<Table, int>) {
    if Keyed(op) then sequences else sequences[op.table := NextOf(sequences, op.table) + 1]
  }

  lemma ExecSequences(db: Db, op: Op)
    requires Exec(db, op).Some?
    ensures Exec(db, op).value.defaults == db.defaults && Exec(db, op).value.sequences == Bumped(db.sequences, op)
  {
  }

  lemma SwapTargets(db: Db, a: Op, b: Op, e: Db)
    requires Apart(a, b) && Exec(db, a) == Some(e)
    ensures Target(db, a) != Target(db, b) && Target(e, b) == Target(db, b)
    ensures Exec(e, b).Some? <==> Exec(db, b).Some?
    ensures Exec(db, b).Some? ==>
              GetRow(Exec(e, b).value, Target(db, b)) == GetRow(Exec(db, b).value, Target(db, b))
  {
    ExecFrame(db, a, Target(db, b));
    ExecSequences(db, a);
    if !Keyed(b) {
      ExecLocal(db, e, b);
    }
  }

  lemma SwapRows(db: Db, a: Op, b: Op, ea: Db, eb: Db, k: Key)
    requires Apart(a, b) && Exec(db, a) == Some(ea) && Exec(db, b) == Some(eb)
    requires Exec(ea, b).Some? && Exec(eb, a).Some?
    ensures GetRow(Exec(ea, b).value, k) == GetRow(Exec(eb, a).value, k)
  {
    SwapTargets(db, a, b, ea);
    SwapTargets(db, b, a, eb);
    ExecFrame(db, a, k);
    ExecFrame(db, b, k);
    ExecFrame(ea, b, k);
    ExecFrame(eb, a, k);
  }

  lemma UpdatesSwap(q: map<Table, int>, s: Table, m: int, t: Table, n: int)
    requires s != t
    ensures q[s := m][t := n] == q[t := n][s := m]
  {
  }

  lemma BumpedApart(q: map<Table, int>, a: Statement, b: Statement)
    requires Keyed(a) || Keyed(b) || a.table != b.table
    ensures Bumped(Bumped(q, a), b) == Bumped(Bumped(q, b), a)
  {
    if !Keyed(a) && !Keyed(b) {
      UpdatesSwap(q, a.table, NextOf(q, a.table) + 1, b.table, NextOf(q, b.table) + 1);
    }
  }

  lemma SwapRejected(db: Db, a: Op, b: Op)
    requires Apart(a, b) && Exec(db, a).None?
    ensures Bind(Exec, Exec(db, b), a) == None
  {
    match Exec(db, b)
    case Some(eb) => SwapTargets(db, b, a, eb);
    case None =>
  }

  lemma Swap(db: Db, a: Op, b: Op)
    requires Apart(a, b)
    ensures Bind(Exec, Exec(db, a), b) == Bind(Exec, Exec(db, b), a)
  {
    var oa, ob := Exec(db, a), Exec(db, b);
    if oa.None? {
      SwapRejected(db, a, b);
    } else if ob.None? {
      SwapRejected(db, b, a);
    } else {
      SwapTargets(db, a, b, oa.value);
      SwapTargets(db, b, a, ob.value);
      SwapBoth(db, a, b, oa.value, ob.value);
    }
  }

  lemma SwapBoth(db: Db, a: Op, b: Op, ea: Db, eb: Db)
    requires Apart(a, b) && Exec(db, a) == Some(ea) && Exec(db, b) == Some(eb)
    requires Exec(ea, b).Some? && Exec(eb, a).Some?
    ensures Exec(ea, b) == Exec(eb, a)
  {
    var ab, ba := Exec(ea, b).value, Exec(eb, a).value;
    forall k
      ensures GetRow(ab, k) == GetRow(ba, k)
    {
      SwapRows(db, a, b, ea, eb, k);
    }
    ExecSequences(db, a);
    ExecSequences(db, b);
    ExecSequences(ea, b);
    ExecSequences(eb, a);
    BumpedApart(db.sequences, a, b);
    SameRows(ab, ba);
  }

  // The rest of the argument does not depend on what a statement does.

  function RunSteps<D, O>(step: (D, O) -> Option<D>, r: Option<D>, ops: seq<O>): (q: Option<D>)
    decreases |ops|
  {
    if ops == [] then r else RunSteps(step, Bind(step, r, ops[0]), ops[1..])
  }

  function Bind<D, O>(step: (D, O) -> Option<D>, r: Option<D>, op: O): (q: Option<D>) {
    match r
    case Some(e) => step(e, op)
    case None => None
  }

  ghost predicate Commute<D(!new), O>(step: (D, O) -> Option<D>, a: O, b: O) {
    forall d :: Bind(step, step(d, a), b) == Bind(step, step(d, b), a)
  }

  lemma {:induction false} StepPast<D(!new), O>(step: (D, O) -> Option<D>, r: Option<D>, op: O, ops: seq<O>)
    requires forall i :: 0 <= i < |ops| ==> Commute(step, op, ops[i])
    ensures RunSteps(step, Bind(step, r, op), ops) == Bind(step, RunSteps(step, r, ops), op)
    decreases |ops|
  {
    if ops != [] {
      assert Commute(step, op, ops[0]);
      assert r.Some? ==> Bind(step, step(r.value, op), ops[0]) == Bind(step, step(r.value, ops[0]), op);
      StepPast(step, Bind(step, r, ops[0]), op, ops[1..]);
    }
  }

  lemma {:induction false} StepsCommute<D(!new), O>(step: (D, O) -> Option<D>, r: Option<D>, a: seq<O>, b: seq<O>)
    requires forall i, j :: 0 <= i < |a| && 0 <= j < |b| ==> Commute(step, a[i], b[j])
    ensures RunSteps(step, RunSteps(step, r, a), b) == RunSteps(step, RunSteps(step, r, b), a)
    decreases |a|
  {
    if a != [] {
      StepPast(step, r, a[0], b);
      StepsCommute(step, Bind(step, r, a[0]), a[1..], b);
    }
  }

  lemma {:induction false} StepsRun(r: Option<Db>, ops: seq<Op>)
    ensures RunSteps(Exec, r, ops) == AndThen(r, ops)
    decreases |ops|
  {
    if ops != [] {
      match r
      case Some(e) => StepsRun(Exec(e, ops[0]), ops[1..]);
      case None => StepsRun(None, ops[1..]);
    }
  }

  lemma AndOne(r: Option<Db>, op: Op)
    ensures AndThen(r, [op]) == Bind(Exec, r, op)
  {
    StepsRun(r, [op]);
    OneStepRun(Exec, r, op);
  }

  lemma OneStepRun<D, O>(step: (D, O) -> Option<D>, r: Option<D>, op: O)
    ensures RunSteps(step, r, [op]) == Bind(step, r, op)
  {
    assert [op][1..] == [];
  }

  /** Batches with no row in common, and no table in common where one of them
      generates a key, give the same in either order, rejections included. */
  lemma DisjointCommute(db: Db, a: seq<Op>, b: seq<Op>)
    requires Disjoint(a, b)
    ensures AndThen(RunOps(db, a), b) == AndThen(RunOps(db, b), a)
  {
    forall i, j | 0 <= i < |a| && 0 <= j < |b|
      ensures Commute(Exec, a[i], b[j])
    {
      forall d: Db
        ensures Bind(Exec, Exec(d, a[i]), b[j]) == Bind(Exec, Exec(d, b[j]), a[i])
      {
        Swap(d, a[i], b[j]);
      }
    }
    StepsCommute(Exec, Some(db), a, b);
    StepsRun(Some(db), a);
    StepsRun(Some(db), b);
    StepsRun(RunOps(db, a), b);
    StepsRun(RunOps(db, b), a);
  }
}
