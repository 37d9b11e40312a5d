/** The persistence layer the engine talks to, in memory: rows of model
    tables, rows of pivot (join) tables, an auto-increment counter and a log of
    the writes in the order they happen. */
module Persistence {
  import opened Values
  import opened Schema

  /** One row of a pivot table: its table and its column values. */
  datatype PivotRow = PivotRow(table: string, cols: map<string, Value>)

  /** A write, as the log records it. */
  datatype Event =
    | Saved(model: string, key: int)
    | PivotsDeleted(table: string, column: string, owner: Value)
    | PivotsInserted(table: string, rows: seq<PivotRow>)

  /** The state of the database: model rows by (class, primary key), pivot
      rows in insertion order, the next auto-increment value, the write log. */
  datatype Db = Db(
    records: map<(string, int), map<string, Value>>,
    pivots: seq<PivotRow>,
    nextId: int,
    log: seq<Event>)

  const EmptyDb := Db(map[], [], 1, [])

  /** `save()` on a model, without events: an entity whose key attribute holds
      an integer is written under that key; any other is inserted under the
      next counter value, which becomes its key. */
  function Persist(db: Db, sc: Schema, e: Entity): (r: (Db, Entity))
    ensures var k := KeyOf(sc, r.1);
      && k.Int?
      && r.1 == SetAttr(e, ClassOf(sc, e.model).keyName, k)
      && (KeyOf(sc, e).Int? ==> r.1 == e)
      && r.0 == db.(records := db.records[(e.model, k.i) := r.1.attrs],
                    nextId := if k.i >= db.nextId then k.i + 1 else db.nextId,
                    log := db.log + [Saved(e.model, k.i)])
  {
    var kn := ClassOf(sc, e.model).keyName;
    var k := if KeyOf(sc, e).Int? then KeyOf(sc, e).i else db.nextId;
    var e' := if KeyOf(sc, e).Int? then e else SetAttr(e, kn, Int(k));
    assert KeyOf(sc, e') == Int(k);
    (db.(records := db.records[(e.model, k) := e'.attrs],
         nextId := if k >= db.nextId then k + 1 else db.nextId,
         log := db.log + [Saved(e.model, k)]),
     e')
  }

  /** The row of `table` whose column `col` holds `key`. */
  predicate OwnedBy(row: PivotRow, table: string, col: string, key: Value) {
    row.table == table && col in row.cols && row.cols[col] == key
  }

  /** The pivot rows a `where(col = key)->delete()` on `table` leaves. */
  function WithoutOwner(rows: seq<PivotRow>, table: string, col: string, key: Value): (r: seq<PivotRow>)
    ensures forall x :: x in r <==> x in rows && !OwnedBy(x, table, col, key)
    ensures |r| <= |rows|
  {
    if rows == [] then []
    else if OwnedBy(rows[0], table, col, key) then WithoutOwner(rows[1..], table, col, key)
    else [rows[0]] + WithoutOwner(rows[1..], table, col, key)
  }

  /** The delete keeps every row of another table or another owner, as often
      as it occurs and in its order. */
  lemma {:induction false} WithoutOwnerKeeps(rows: seq<PivotRow>, table: string, col: string, key: Value)
    ensures var r := WithoutOwner(rows, table, col, key);
      && Subsequence(r, rows)
      && forall x :: multiset(r)[x] == if OwnedBy(x, table, col, key) then 0 else multiset(rows)[x]
  {
    if rows != [] {
      WithoutOwnerKeeps(rows[1..], table, col, key);
      var rest := WithoutOwner(rows[1..], table, col, key);
      assert rows == [rows[0]] + rows[1..];
      if OwnedBy(rows[0], table, col, key) {
        SubsequenceSkip(rest, rows);
      } else {
        assert ([rows[0]] + rest)[1..] == rest;
      }
    }
  }

  function DeletePivots(db: Db, table: string, col: string, key: Value): Db {
    db.(pivots := WithoutOwner(db.pivots, table, col, key),
        log := db.log + [PivotsDeleted(table, col, key)])
  }

  function InsertPivots(db: Db, table: string, rows: seq<PivotRow>): Db {
    db.(pivots := db.pivots + rows, log := db.log + [PivotsInserted(table, rows)])
  }

  /** `newQuery()->find($k)`. */
  function Find(db: Db, sc: Schema, model: string, k: int): (r: Option<Entity>)
    ensures r.Some? <==> (model, k) in db.records
    ensures r.Some? ==> r.value.model == model && r.value.attrs == db.records[(model, k)]
                        && r.value.relations == []
  {
    if (model, k) in db.records
    then Some(Entity(model, db.records[(model, k)], [], ClassOf(sc, model).deepFillable))
    else None
  }

  function KeysOfIds(ids: seq<Value>): (ks: seq<int>)
    requires forall i :: 0 <= i < |ids| ==> IsNumeric(ids[i])
    ensures |ks| == |ids| && forall i :: 0 <= i < |ids| ==> ks[i] == NumericInt(ids[i])
  {
    seq(|ids|, i requires 0 <= i < |ids| && IsNumeric(ids[i]) => NumericInt(ids[i]))
  }

  /** The keys of `ks` that have a row of `model`, each once, in the order in
      which they first occur. */
  function FoundKeys(db: Db, model: string, ks: seq<int>): (fk: seq<int>)
    ensures forall k :: k in fk <==> k in ks && (model, k) in db.records
    ensures forall i, j :: 0 <= i < j < |fk| ==> fk[i] != fk[j]
    ensures |fk| <= |ks|
  {
    if ks == [] then []
    else
      var init := ks[..|ks| - 1];
      var k := ks[|ks| - 1];
      assert ks == init + [k];
      var prev := FoundKeys(db, model, init);
      if (model, k) in db.records && k !in init then prev + [k] else prev
  }

  /** The position of the first occurrence of `k` in `ks`. */
  function FirstPos(ks: seq<int>, k: int): (p: nat)
    requires k in ks
    ensures p < |ks| && ks[p] == k && k !in ks[..p]
  {
    if ks[0] == k then 0
    else
      assert k in ks[1..];
      var p := 1 + FirstPos(ks[1..], k);
      assert ks[..p] == [ks[0]] + ks[1..][..p - 1];
      p
  }

  /** `FoundKeys` lists the keys by their first occurrence in `ks`. */
  lemma {:induction false} FoundKeysInOrder(db: Db, model: string, ks: seq<int>)
    ensures forall i, j :: 0 <= i < j < |FoundKeys(db, model, ks)| ==>
      FirstPos(ks, FoundKeys(db, model, ks)[i]) < FirstPos(ks, FoundKeys(db, model, ks)[j])
    decreases |ks|
  {
    if ks != [] {
      var init := ks[..|ks| - 1];
      var k := ks[|ks| - 1];
      assert ks == init + [k];
      FoundKeysInOrder(db, model, init);
      var prev := FoundKeys(db, model, init);
      forall x | x in prev ensures FirstPos(ks, x) == FirstPos(init, x) < |init| {
        FirstPosPrefix(ks, init, x);
      }
      if (model, k) in db.records && k !in init {
        assert FirstPos(ks, k) == |init| by {
          assert ks[|init|] == k && k !in ks[..|init|];
          FirstPosUnique(ks, k, |init|);
        }
        var fk := prev + [k];
        forall i, j | 0 <= i < j < |fk| ensures FirstPos(ks, fk[i]) < FirstPos(ks, fk[j]) {
          assert fk[i] == prev[i] && fk[i] in prev;
          if j < |prev| {
            assert fk[j] == prev[j] && fk[j] in prev;
            assert FirstPos(init, prev[i]) < FirstPos(init, prev[j]);
          } else {
            assert fk[j] == k;
          }
        }
      } else {
        forall i, j | 0 <= i < j < |prev| ensures FirstPos(ks, prev[i]) < FirstPos(ks, prev[j]) {
          assert prev[i] in prev && prev[j] in prev;
        }
      }
    }
  }

  /** The first occurrence is the only position before which `k` is absent. */
  lemma FirstPosUnique(ks: seq<int>, k: int, q: nat)
    requires q < |ks| && ks[q] == k && k !in ks[..q]
    ensures FirstPos(ks, k) == q
  {
  }

  lemma FirstPosPrefix(ks: seq<int>, init: seq<int>, x: int)
    requires init <= ks && x in init
    ensures FirstPos(ks, x) == FirstPos(init, x)
  {
    var q := FirstPos(init, x);
    assert ks[..q] == init[..q];
    FirstPosUnique(ks, x, q);
  }

  /** `newQuery()->whereIn(keyName, $ids)->get()`: the model of each key that
      has a row, each key once, in the order the keys first occur. */
  function FindMany(db: Db, sc: Schema, model: string, ks: seq<int>): (r: seq<Entity>)
    ensures |r| == |FoundKeys(db, model, ks)| <= |ks|
    ensures forall i :: 0 <= i < |r| ==> Find(db, sc, model, FoundKeys(db, model, ks)[i]) == Some(r[i])
    ensures forall x :: x in r ==> x.model == model && x.relations == []
    ensures forall x :: x in r ==> exists k :: k in ks && Find(db, sc, model, k) == Some(x)
    ensures forall k :: k in ks && (model, k) in db.records ==> Find(db, sc, model, k).value in r
  {
    var fk := FoundKeys(db, model, ks);
    var r := seq(|fk|, i requires 0 <= i < |fk| => Find(db, sc, model, fk[i]).value);
    assert forall x :: x in r ==> exists i :: 0 <= i < |fk| && r[i] == x && fk[i] in ks;
    assert forall k :: k in ks && (model, k) in db.records ==> exists i :: 0 <= i < |fk| && fk[i] == k;
    r
  }

  /** The database as an object the save cascade writes to. */
  class Store {
    const schema: Schema
    var records: map<(string, int), map<string, Value>>
    var pivots: seq<PivotRow>
    var nextId: int
    var log: seq<Event>

    function State(): Db
      reads this
    {
      Db(records, pivots, nextId, log)
    }

    constructor (schema: Schema)
      ensures this.schema == schema && State() == EmptyDb
    {
      this.schema := schema;
      records, pivots, nextId, log := map[], [], 1, [];
    }

    /** `save()` of one model, without its events. */
    method Save(e: Entity) returns (r: Entity)
      modifies this
      ensures (State(), r) == Persist(old(State()), schema, e)
    {
      var st := Persist(State(), schema, e);
      records, pivots, nextId, log := st.0.records, st.0.pivots, st.0.nextId, st.0.log;
      r := st.1;
    }

    /** `DB::table($table)->where([$col => $key])->delete()`. */
    method DeleteWhere(table: string, col: string, key: Value)
      modifies this
      ensures State() == DeletePivots(old(State()), table, col, key)
    {
      pivots := WithoutOwner(pivots, table, col, key);
      log := log + [PivotsDeleted(table, col, key)];
    }

    /** `DB::table($table)->insert($rows)`. */
    method Insert(table: string, rows: seq<PivotRow>)
      modifies this
      ensures State() == InsertPivots(old(State()), table, rows)
    {
      pivots := pivots + rows;
      log := log + [PivotsInserted(table, rows)];
    }
  }
}
