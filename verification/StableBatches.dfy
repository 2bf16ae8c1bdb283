/** Which batches of keyed statements may be applied again: a condition on the
    statements of each row. */
module StableBatches {
  import opened Common
  import opened SqlTables

  // --------------------------------------- guarded statements on one column

  predicate AllGuards(ops: seq<Statement>) {
    forall i :: 0 <= i < |ops| ==> ops[i].UpdateIf? || ops[i].DeleteIf?
  }

  predicate GuardsOn(ops: seq<Statement>, col: Column) {
    AllGuards(ops) && forall i :: 0 <= i < |ops| ==> ops[i].col == col
  }

  /** Where guarded statements take a number; none if they delete the row. */
  function GuardRun(ops: seq<Statement>, v: int): (w: Option<int>)
    requires AllGuards(ops)
  {
    if ops == [] then Some(v)
    else if ops[0].pre != v then GuardRun(ops[1..], v)
    else if ops[0].UpdateIf? then GuardRun(ops[1..], ops[0].post)
    else None
  }

  lemma {:induction false} GuardsOnAbsent(ops: seq<Statement>, fill: Row)
    requires AllGuards(ops)
    ensures RowRun(ops, fill, None) == None
  {
    if ops != [] {
      GuardsOnAbsent(ops[1..], fill);
    }
  }

  lemma UpdateTwice(row: Row, col: Column, v: int, w: int)
    ensures row[col := Number(v)][col := Number(w)] == row[col := Number(w)]
  {
  }

  /** A row with a number in the column goes where the number goes. */
  lemma {:induction false} GuardsOnNumber(ops: seq<Statement>, col: Column, fill: Row, row: Row, v: int)
    requires GuardsOn(ops, col) && Matches(row, col, v)
    ensures RowRun(ops, fill, Some(row)) == match GuardRun(ops, v)
                                            case Some(w) => Some(row[col := Number(w)])
                                            case None => None
  {
    if ops == [] {
      assert row[col := Number(v)] == row;
    } else if ops[0].pre != v {
      GuardsOnNumber(ops[1..], col, fill, row, v);
    } else if ops[0].UpdateIf? {
      var w := GuardRun(ops, v);
      GuardsOnNumber(ops[1..], col, fill, row[col := Number(ops[0].post)], ops[0].post);
      if w.Some? {
        UpdateTwice(row, col, ops[0].post, w.value);
      }
    } else {
      GuardsOnAbsent(ops[1..], fill);
    }
  }

  lemma {:induction false} GuardsOnOther(ops: seq<Statement>, col: Column, fill: Row, row: Row)
    requires GuardsOn(ops, col) && forall v :: !Matches(row, col, v)
    ensures RowRun(ops, fill, Some(row)) == Some(row)
  {
    if ops != [] {
      assert !Matches(row, col, ops[0].pre);
      GuardsOnOther(ops[1..], col, fill, row);
    }
  }

  /** The replay changes nothing where the statements led from `v`. */
  predicate SilentFrom(ops: seq<Statement>, v: int)
    requires AllGuards(ops)
  {
    var w := GuardRun(ops, v);
    w.Some? ==> GuardRun(ops, w.value) == w
  }

  /** So from each value that a statement asks for. */
  predicate GuardsSettle(ops: seq<Statement>)
    requires AllGuards(ops)
  {
    forall i :: 0 <= i < |ops| ==> SilentFrom(ops, ops[i].pre)
  }

  lemma {:induction false} NoGuardMatches(ops: seq<Statement>, v: int)
    requires AllGuards(ops) && forall i :: 0 <= i < |ops| ==> ops[i].pre != v
    ensures GuardRun(ops, v) == Some(v)
  {
    if ops != [] {
      NoGuardMatches(ops[1..], v);
    }
  }

  lemma SilentEverywhere(ops: seq<Statement>, v: int)
    requires AllGuards(ops) && GuardsSettle(ops)
    ensures SilentFrom(ops, v)
  {
    if forall i :: 0 <= i < |ops| ==> ops[i].pre != v {
      NoGuardMatches(ops, v);
    }
  }

  lemma GuardsStable(t: Table, ops: seq<Statement>, col: Column, fill: Row)
    requires GuardsOn(ops, col) && GuardsSettle(ops)
    ensures TableStable(t, ops, fill)
  {
    GuardsOnAbsent(ops, fill);
    forall r: Option<Row> | Fits(t, r)
      ensures RowRun(ops, fill, RowRun(ops, fill, r)) == RowRun(ops, fill, r)
    {
      if r.Some? {
        GuardsTwice(ops, col, fill, r.value);
      }
    }
  }

  lemma GuardsTwice(ops: seq<Statement>, col: Column, fill: Row, row: Row)
    requires GuardsOn(ops, col) && GuardsSettle(ops)
    ensures RowRun(ops, fill, RowRun(ops, fill, Some(row))) == RowRun(ops, fill, Some(row))
  {
    if v :| Matches(row, col, v) {
      SilentEverywhere(ops, v);
      GuardsOnNumber(ops, col, fill, row, v);
      GuardsOnAbsent(ops, fill);
      var w := GuardRun(ops, v);
      if w.Some? {
        GuardsOnNumber(ops, col, fill, row[col := Number(w.value)], w.value);
        UpdateTwice(row, col, w.value, w.value);
      }
    } else {
      GuardsOnOther(ops, col, fill, row);
    }
  }

  /** The exact criterion for guarded statements on one column of a row: the
      replay is silent from each value that one of them asks for. */
  lemma GuardsStableExact(t: Table, ops: seq<Statement>, col: Column, fill: Row)
    requires GuardsOn(ops, col) && col in Columns(t)
    ensures TableStable(t, ops, fill) <==> GuardsSettle(ops)
  {
    if GuardsSettle(ops) {
      GuardsStable(t, ops, col, fill);
    }
    if TableStable(t, ops, fill) {
      forall i | 0 <= i < |ops|
        ensures SilentFrom(ops, ops[i].pre)
      {
        StableIsSilent(t, ops, col, fill, ops[i].pre);
      }
    }
  }

  lemma StableIsSilent(t: Table, ops: seq<Statement>, col: Column, fill: Row, v: int)
    requires GuardsOn(ops, col) && col in Columns(t) && TableStable(t, ops, fill)
    ensures SilentFrom(ops, v)
  {
    var row := BlankRow(t)[col := Number(v)];
    assert Fits(t, Some(row));
    GuardsOnNumber(ops, col, fill, row, v);
    var w := GuardRun(ops, v);
    if w.Some? {
      var next := row[col := Number(w.value)];
      GuardsOnNumber(ops, col, fill, next, w.value);
      var x := GuardRun(ops, w.value);
      assert x.Some? ==> next[col := Number(x.value)][col] == Number(x.value);
    }
  }

  lemma OneGuard(op: Statement, v: int)
    requires op.UpdateIf?
    ensures GuardRun([op], v) == Some(if op.pre == v then op.post else v)
  {
    assert [op][1..] == [];
  }

  lemma TwoGuards(a: Statement, b: Statement, v: int)
    requires a.UpdateIf? && b.UpdateIf?
    ensures var w := if a.pre == v then a.post else v;
            GuardRun([a, b], v) == Some(if b.pre == w then b.post else w)
  {
    assert [a, b][1..] == [b];
    OneGuard(b, if a.pre == v then a.post else v);
  }

  lemma OneRowExact(k: Key, col: Column, ops: seq<Op>)
    requires GuardsOn(ops, col) && col in Columns(k.table) && forall i :: 0 <= i < |ops| ==> ops[i].key == k
    ensures StableOps(ops) <==> GuardsSettle(ops)
  {
    OnAll(k, ops);
    if GuardsSettle(ops) {
      forall j: Key, fill: Row | fill.Keys == Columns(j.table)
        ensures TableStable(j.table, On(j, ops), fill)
      {
        if j == k {
          GuardsStable(k.table, ops, col, fill);
        } else {
          OnNothing(j, ops);
        }
      }
      RowsMakeStable(ops);
    }
    if StableOps(ops) {
      StableMakesRows(ops, k, BlankRow(k.table));
      GuardsStableExact(k.table, ops, col, BlankRow(k.table));
    }
  }

  /** Statements that are not linked may be unstable: from 4 these two lead to 5
      and, replayed, to 3. */
  lemma UnlinkedUnstable(id: int)
    ensures var k := Key(Item, id); !StableOps([UpdateIf(k, Count, 5, 3), UpdateIf(k, Count, 4, 5)])
  {
    var k := Key(Item, id);
    var a: Op, b: Op := UpdateIf(k, Count, 5, 3), UpdateIf(k, Count, 4, 5);
    OneRowExact(k, Count, [a, b]);
    TwoGuards(a, b, 4);
    TwoGuards(a, b, 5);
    assert !SilentFrom([a, b], [a, b][1].pre);
  }

  /** Or stable, when they stay apart. */
  lemma UnlinkedStable(id: int)
    ensures var k := Key(Item, id); StableOps([UpdateIf(k, Count, 5, 3), UpdateIf(k, Count, 7, 8)])
  {
    var k := Key(Item, id);
    var a: Op, b: Op := UpdateIf(k, Count, 5, 3), UpdateIf(k, Count, 7, 8);
    OneRowExact(k, Count, [a, b]);
    TwoGuards(a, b, 5);
    TwoGuards(a, b, 3);
    TwoGuards(a, b, 7);
    TwoGuards(a, b, 8);
  }

  /** Linked statements meet the criterion. */
  lemma ChainSettles(t: Table, ops: seq<Statement>, col: Column)
    requires Chain(ops, col) && col in Columns(t)
    ensures GuardsOn(ops, col) && GuardsSettle(ops)
  {
    var fill := BlankRow(t);
    ChainStable(ops, col, fill);
    assert TableStable(t, ops, fill);
    GuardsStableExact(t, ops, col, fill);
  }

  // ---------------------------------------------- statements that start over

  /** A delete, or an upsert that names every column. */
  predicate Full(op: Statement) {
    op.Delete? || (op.Upsert? && op.cols.Keys == Columns(op.key.table))
  }

  predicate Forgets(ops: seq<Statement>) {
    exists i :: 0 <= i < |ops| && Full(ops[i])
  }

  predicate RowsOf(t: Table, ops: seq<Statement>) {
    forall i :: 0 <= i < |ops| ==> Keyed(ops[i]) && WellTyped(ops[i]) && ops[i].key.table == t
  }

  lemma FullSame(op: Statement, t: Table, fill: Row, r: Option<Row>, q: Option<Row>)
    requires Full(op) && op.key.table == t && fill.Keys == Columns(t) && Fits(t, r) && Fits(t, q)
    ensures RowOp(op, fill, r) == RowOp(op, fill, q)
  {
    if op.Upsert? {
      assert fill + op.cols == op.cols;
      assert r.Some? ==> r.value + op.cols == op.cols;
      assert q.Some? ==> q.value + op.cols == op.cols;
    }
  }

  /** What such a statement leaves does not depend on the row before. */
  lemma {:induction false} FullForgets(ops: seq<Statement>, t: Table, fill: Row, r: Option<Row>, q: Option<Row>)
    requires RowsOf(t, ops) && Forgets(ops) && fill.Keys == Columns(t) && Fits(t, r) && Fits(t, q)
    ensures RowRun(ops, fill, r) == RowRun(ops, fill, q)
  {
    if Full(ops[0]) {
      FullSame(ops[0], t, fill, r, q);
    } else {
      var i :| 0 <= i < |ops| && Full(ops[i]);
      assert Full(ops[1..][i - 1]);
      RowOpFits(ops[0], fill, r);
      RowOpFits(ops[0], fill, q);
      FullForgets(ops[1..], t, fill, RowOp(ops[0], fill, r), RowOp(ops[0], fill, q));
    }
  }

  lemma {:induction false} RowRunFits(ops: seq<Statement>, t: Table, fill: Row, r: Option<Row>)
    requires RowsOf(t, ops) && fill.Keys == Columns(t) && Fits(t, r)
    ensures AllKeyed(ops) && Fits(t, RowRun(ops, fill, r))
  {
    if ops != [] {
      RowOpFits(ops[0], fill, r);
      RowRunFits(ops[1..], t, fill, RowOp(ops[0], fill, r));
    }
  }

  lemma ForgetfulStable(t: Table, ops: seq<Statement>, fill: Row)
    requires RowsOf(t, ops) && Forgets(ops) && fill.Keys == Columns(t)
    ensures TableStable(t, ops, fill)
  {
    forall r: Option<Row> | Fits(t, r)
      ensures RowRun(ops, fill, RowRun(ops, fill, r)) == RowRun(ops, fill, r)
    {
      RowRunFits(ops, t, fill, r);
      FullForgets(ops, t, fill, RowRun(ops, fill, r), r);
    }
  }

  // ------------------------------------------------------------ whole batches

  predicate OnlyInserts(ops: seq<Statement>) {
    forall i :: 0 <= i < |ops| ==> ops[i].InsertIfAbsent?
  }

  predicate SettledGuards(ops: seq<Statement>, col: Column) {
    GuardsOn(ops, col) && GuardsSettle(ops)
  }

  /** The statements of one row may be applied again: one of them starts over,
      or they are updates with upserts that write all of their columns, or
      inserts that do nothing on conflict, or guarded ones that settle. */
  ghost predicate Settled(ops: seq<Statement>) {
    Forgets(ops) || WideUpserts(ops) || OnlyInserts(ops) || exists col :: SettledGuards(ops, col)
  }

  lemma SettledStable(t: Table, ops: seq<Statement>, fill: Row)
    requires RowsOf(t, ops) && Settled(ops) && fill.Keys == Columns(t)
    ensures TableStable(t, ops, fill)
  {
    if Forgets(ops) {
      ForgetfulStable(t, ops, fill);
    } else if WideUpserts(ops) {
      WideUpsertsStable(ops, fill);
    } else if OnlyInserts(ops) {
      InsertsIfAbsentStable(ops, fill);
    } else {
      var col :| SettledGuards(ops, col);
      GuardsStable(t, ops, col, fill);
    }
  }

  ghost predicate EveryRowSettled(ops: seq<Statement>)
    requires AllKeyed(ops)
  {
    forall k :: Settled(On(k, ops))
  }

  lemma OnTyped(k: Key, ops: seq<Op>)
    requires AllKeyed(ops)
    ensures RowsOf(k.table, On(k, ops))
  {
    forall i | 0 <= i < |On(k, ops)|
      ensures WellTyped(On(k, ops)[i])
    {
      var j :| 0 <= j < |ops| && ops[j] == On(k, ops)[i];
    }
  }

  /** A batch of any mix whose rows are all settled is replay-stable. */
  lemma SettledBatchStable(ops: seq<Op>)
    requires AllKeyed(ops) && EveryRowSettled(ops)
    ensures StableOps(ops)
  {
    forall k: Key, fill: Row | fill.Keys == Columns(k.table)
      ensures TableStable(k.table, On(k, ops), fill)
    {
      OnTyped(k, ops);
      assert Settled(On(k, ops));
      SettledStable(k.table, On(k, ops), fill);
    }
    RowsMakeStable(ops);
  }
}
