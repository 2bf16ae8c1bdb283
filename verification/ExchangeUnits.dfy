/** Several exchange units in one batch, as the batcher that all players of a
    channel share collects them, and when such a batch may be applied again. */
module ExchangeUnits {
  import opened Common
  import opened SqlTables
  import opened StableBatches
  import opened Exchange

  predicate AllComplete(exs: seq<ItemExchange>) {
    forall u :: 0 <= u < |exs| ==> Complete(exs[u])
  }

  predicate AllExplicit(exs: seq<ItemExchange>) {
    forall u :: 0 <= u < |exs| ==> Explicit(exs[u])
  }

  /** Unit after unit. */
  function UnitsOps(exs: seq<ItemExchange>): (ops: seq<Op>)
    requires AllComplete(exs)
  {
    if exs == [] then [] else ExchangeOps(exs[0]) + UnitsOps(exs[1..])
  }

  /** The guarded statements of a unit on one row. */
  function UnitGuards(ex: ItemExchange, k: Key): (ops: seq<Statement>) {
    On(k, MaterialOps(ex.materials)) + On(k, GoldOps(ex))
  }

  /** Those of all units, in order. */
  function GuardsAt(exs: seq<ItemExchange>, k: Key): (ops: seq<Statement>) {
    if exs == [] then [] else UnitGuards(exs[0], k) + GuardsAt(exs[1..], k)
  }

  predicate Writes(ex: ItemExchange, k: Key) {
    k.table == Item && IsResult(ex, k.pk)
  }

  /** Some unit has the row as its result. */
  predicate ResultAt(exs: seq<ItemExchange>, k: Key) {
    exists u :: 0 <= u < |exs| && Writes(exs[u], k)
  }

  /** A table's guarded statements are on one column. */
  function GuardColumn(t: Table): (c: Column) {
    if t == Item then Count else Gold
  }

  predicate GuardOf(op: Statement, k: Key) {
    (op.UpdateIf? || op.DeleteIf?) && op.key == k && op.col == GuardColumn(k.table) && op.col in Columns(k.table)
  }

  predicate GuardsOf(ops: seq<Statement>, k: Key) {
    forall i :: 0 <= i < |ops| ==> GuardOf(ops[i], k)
  }

  lemma UnitGuardsOf(ex: ItemExchange, k: Key)
    ensures GuardsOf(UnitGuards(ex, k), k)
  {
    forall i | 0 <= i < |UnitGuards(ex, k)|
      ensures GuardOf(UnitGuards(ex, k)[i], k)
    {
      var op := UnitGuards(ex, k)[i];
      assert op in MaterialOps(ex.materials) || op in GoldOps(ex);
    }
  }

  lemma {:induction false} AllGuardsOf(exs: seq<ItemExchange>, k: Key)
    ensures GuardsOf(GuardsAt(exs, k), k)
  {
    if exs != [] {
      UnitGuardsOf(exs[0], k);
      AllGuardsOf(exs[1..], k);
    }
  }

  /** What a unit does to a row that is not its result, and that it starts over
      a row that is. */
  lemma UnitOn(ex: ItemExchange, k: Key)
    requires Complete(ex) && Explicit(ex)
    ensures AllKeyed(ExchangeOps(ex))
    ensures !Writes(ex, k) ==> On(k, ExchangeOps(ex)) == UnitGuards(ex, k)
    ensures Writes(ex, k) ==> Forgets(On(k, ExchangeOps(ex)))
  {
    var ms, result, gold := On(k, MaterialOps(ex.materials)), On(k, ResultOps(ex)), On(k, GoldOps(ex));
    OnAppend(k, MaterialOps(ex.materials), ResultOps(ex));
    OnAppend(k, MaterialOps(ex.materials) + ResultOps(ex), GoldOps(ex));
    if ex.result.Some? {
      OneOn(k, ResultOps(ex)[0]);
    }
    if Writes(ex, k) {
      assert (ms + result + gold)[|ms|] == ResultOps(ex)[0];
    } else {
      assert result == [] && ms + [] == ms;
    }
  }

  lemma ForgetsPart(a: seq<Statement>, b: seq<Statement>)
    requires Forgets(a) || Forgets(b)
    ensures Forgets(a + b)
  {
    if Forgets(a) {
      var i :| 0 <= i < |a| && Full(a[i]);
      assert Full((a + b)[i]);
    } else {
      var i :| 0 <= i < |b| && Full(b[i]);
      assert Full((a + b)[|a| + i]);
    }
  }

  lemma {:induction false} UnitsOn(exs: seq<ItemExchange>, k: Key)
    requires AllComplete(exs) && AllExplicit(exs)
    ensures AllKeyed(UnitsOps(exs))
    ensures !ResultAt(exs, k) ==> On(k, UnitsOps(exs)) == GuardsAt(exs, k)
    ensures ResultAt(exs, k) ==> Forgets(On(k, UnitsOps(exs)))
  {
    if exs != [] {
      UnitOn(exs[0], k);
      UnitsOn(exs[1..], k);
      OnAppend(k, ExchangeOps(exs[0]), UnitsOps(exs[1..]));
      assert ResultAt(exs, k) <==> Writes(exs[0], k) || ResultAt(exs[1..], k) by {
        ResultCons(exs, k);
      }
      if ResultAt(exs, k) {
        ForgetsPart(On(k, ExchangeOps(exs[0])), On(k, UnitsOps(exs[1..])));
      }
    }
  }

  lemma ResultCons(exs: seq<ItemExchange>, k: Key)
    requires exs != []
    ensures ResultAt(exs, k) <==> Writes(exs[0], k) || ResultAt(exs[1..], k)
  {
    if ResultAt(exs[1..], k) {
      var u :| 0 <= u < |exs[1..]| && Writes(exs[1..][u], k);
      assert Writes(exs[u + 1], k);
    }
    if ResultAt(exs, k) && !Writes(exs[0], k) {
      var u :| 0 <= u < |exs| && Writes(exs[u], k);
      assert Writes(exs[1..][u - 1], k);
    }
  }

  /** Identifiers are generated exactly where a unit asks for one. */
  lemma {:induction false} KeyedExactly(exs: seq<ItemExchange>)
    requires AllComplete(exs)
    ensures AllKeyed(UnitsOps(exs)) <==> AllExplicit(exs)
    ensures forall i :: 0 <= i < |UnitsOps(exs)| ==> !UnitsOps(exs)[i].InsertFresh?
  {
    if exs != [] {
      KeyedExactly(exs[1..]);
      var a, b := ExchangeOps(exs[0]), UnitsOps(exs[1..]);
      KeyedUnit(exs[0]);
      assert AllKeyed(a + b) <==> AllKeyed(a) && AllKeyed(b) by {
        assert forall i :: 0 <= i < |b| ==> b[i] == (a + b)[|a| + i];
        assert forall i :: 0 <= i < |a| ==> a[i] == (a + b)[i];
      }
      assert AllExplicit(exs) <==> Explicit(exs[0]) && AllExplicit(exs[1..]);
    }
  }

  lemma KeyedUnit(ex: ItemExchange)
    requires Complete(ex)
    ensures AllKeyed(ExchangeOps(ex)) <==> Explicit(ex)
    ensures forall i :: 0 <= i < |ExchangeOps(ex)| ==> !ExchangeOps(ex)[i].InsertFresh?
  {
    if Explicit(ex) {
      UnitOn(ex, ItemKey(0));
    } else {
      assert ExchangeOps(ex)[|ex.materials|] == UpsertOp(ex.result.value.0, ex.result.value.1);
    }
  }

  /** At every row that is no result the guarded statements settle. */
  ghost predicate GuardsSettled(exs: seq<ItemExchange>) {
    forall k :: ResultAt(exs, k) || SettledGuards(GuardsAt(exs, k), GuardColumn(k.table))
  }

  lemma UnitsRowStable(exs: seq<ItemExchange>, k: Key)
    requires AllComplete(exs) && AllExplicit(exs) && GuardsSettled(exs)
    ensures AllKeyed(UnitsOps(exs)) && Settled(On(k, UnitsOps(exs)))
  {
    UnitsOn(exs, k);
  }

  lemma StableGuardsSettle(exs: seq<ItemExchange>, k: Key)
    requires AllComplete(exs) && AllExplicit(exs) && StableOps(UnitsOps(exs)) && !ResultAt(exs, k)
    ensures SettledGuards(GuardsAt(exs, k), GuardColumn(k.table))
  {
    var ops, fill := GuardsAt(exs, k), BlankRow(k.table);
    UnitsOn(exs, k);
    AllGuardsOf(exs, k);
    StableMakesRows(UnitsOps(exs), k, fill);
    if ops != [] {
      assert GuardOf(ops[0], k);
      GuardsStableExact(k.table, ops, GuardColumn(k.table), fill);
    }
  }

  /** Exactly when a batch of units may be applied again over any database:
      every result has its id, and at every row that is no unit's result the
      guarded statements of all units, taken in order, are silent when replayed
      from each value they ask for. The materials of a unit need not be
      distinct. */
  lemma UnitsReplayExact(exs: seq<ItemExchange>)
    requires AllComplete(exs)
    ensures StableOps(UnitsOps(exs)) <==> AllExplicit(exs) && GuardsSettled(exs)
  {
    var ops := UnitsOps(exs);
    KeyedExactly(exs);
    if !AllExplicit(exs) {
      var i :| 0 <= i < |ops| && !Keyed(ops[i]);
      GeneratedIdUnstable(ops, i);
    } else {
      if GuardsSettled(exs) {
        forall k
          ensures Settled(On(k, ops))
        {
          UnitsRowStable(exs, k);
        }
        SettledBatchStable(ops);
      }
      if StableOps(ops) {
        forall k | !ResultAt(exs, k)
          ensures SettledGuards(GuardsAt(exs, k), GuardColumn(k.table))
        {
          StableGuardsSettle(exs, k);
        }
      }
    }
  }
}
