/** The save cascade of the deep-relation trait, as functions of the database
    state: `deepSave`, the pre-save hook (belongs-to parents) and the post-save
    hook (has-one, has-many and many-to-many children). A function returns the
    database after the call together with the saved entity, or the error that
    aborted the cascade (writes made before the error stay in the database). */
module Cascade {
  import opened Values
  import opened Schema
  import opened Strategy
  import opened Persistence

  datatype Step<T> = Step(db: Db, res: Result<T>)

  type Outcome = Step<Entity>

  // ---------------------------------------------------------------------------
  // Size of the loaded-relation tree: the termination measure. Attributes do
  // not count, so stamping a foreign key into a child keeps its size.

  function Size(e: Entity): nat
    decreases e, 1
  {
    1 + RelationsSize(e, 0)
  }

  function RelationsSize(e: Entity, i: nat): nat
    decreases e, 0, |e.relations| - i
  {
    if i >= |e.relations| then 0 else ValueSize(e.relations[i].1) + RelationsSize(e, i + 1)
  }

  function ValueSize(v: Value): nat
    decreases v, 1
  {
    match v
    case Obj(c) => Size(c)
    case Arr(_) => 1 + EntriesSize(v, 0)
    case _ => 0
  }

  function EntriesSize(v: Value, i: nat): nat
    requires v.Arr?
    decreases v, 0, |v.entries| - i
  {
    if i >= |v.entries| then 0 else ValueSize(v.entries[i].1) + EntriesSize(v, i + 1)
  }

  lemma {:induction false} RelationSmaller(e: Entity, i: nat, x: (string, Value))
    requires i <= |e.relations| && x in e.relations[i..]
    ensures ValueSize(x.1) <= RelationsSize(e, i)
    decreases |e.relations| - i
  {
    if e.relations[i] != x { RelationSmaller(e, i + 1, x); }
  }

  lemma {:induction false} EntrySmaller(v: Value, i: nat, x: (Key, Value))
    requires v.Arr? && i <= |v.entries| && x in v.entries[i..]
    ensures ValueSize(x.1) <= EntriesSize(v, i)
    decreases |v.entries| - i
  {
    if v.entries[i] != x { EntrySmaller(v, i + 1, x); }
  }

  /** Every loaded relation of `e` is smaller than `e`. */
  lemma LoadedSmaller(e: Entity)
    ensures forall x :: x in e.relations ==> ValueSize(x.1) < Size(e)
  {
    forall x | x in e.relations ensures ValueSize(x.1) < Size(e) {
      RelationSmaller(e, 0, x);
    }
  }

  /** Every element of a collection is smaller than the collection. */
  lemma ElementsSmaller(v: Value)
    ensures forall x :: x in Elements(v) ==> ValueSize(x.1) < ValueSize(v)
  {
    forall x | x in Elements(v) ensures ValueSize(x.1) < ValueSize(v) {
      EntrySmaller(v, 0, x);
    }
  }

  /** The truthy elements of a collection smaller than `bound` are too. */
  lemma KeptSmaller(v: Value, bound: nat)
    requires ValueSize(v) < bound
    ensures forall x :: x in FilterTruthy(Elements(v)) ==> ValueSize(x.1) < bound
  {
    ElementsSmaller(v);
  }

  // ---------------------------------------------------------------------------
  // Helpers named after the source

  /** `end(explode(".", $qualified))`: the column name after the last dot. */
  function ColumnSuffix(qualified: string): (c: string)
    ensures '.' !in c
  {
    if qualified == [] then []
    else if qualified[|qualified| - 1] == '.' then []
    else ColumnSuffix(qualified[..|qualified| - 1]) + [qualified[|qualified| - 1]]
  }

  /** The column is what follows the last dot: a suffix of the qualified
      name, preceded by a dot unless it is the whole name. */
  lemma {:induction false} ColumnSuffixIsLast(qualified: string)
    ensures var c := ColumnSuffix(qualified);
      && |c| <= |qualified| && qualified[|qualified| - |c|..] == c
      && (|c| < |qualified| ==> qualified[|qualified| - |c| - 1] == '.')
      && ('.' !in qualified ==> c == qualified)
  {
    if qualified != [] && qualified[|qualified| - 1] != '.' {
      var rest := qualified[..|qualified| - 1];
      ColumnSuffixIsLast(rest);
      var c := ColumnSuffix(rest);
      assert qualified[|qualified| - |c| - 1..] == rest[|rest| - |c|..] + [qualified[|qualified| - 1]];
      assert '.' !in qualified ==> '.' !in rest;
    }
  }

  /** `array_filter($data)`: the truthy entries, keys kept. */
  function FilterTruthy(es: seq<(Key, Value)>): (r: seq<(Key, Value)>)
    ensures forall x :: x in r <==> x in es && Truthy(x.1)
    ensures Subsequence(r, es)
  {
    if es == [] then []
    else if Truthy(es[0].1) then [es[0]] + FilterTruthy(es[1..])
    else FilterTruthy(es[1..])
  }

  /** The entries a `foreach` over `v` visits: none unless `v` is an array. */
  function Elements(v: Value): seq<(Key, Value)> {
    if v.Arr? then v.entries else []
  }

  /** `r` is `root` with only the loaded relation `name` (re)placed. */
  ghost predicate RelationReplaced(root: Entity, r: Entity, name: string) {
    && r.model == root.model && r.attrs == root.attrs && r.deepFillable == root.deepFillable
    && GetRelation(r.relations, name).Some?
    && r.relations == SetRelation(root.relations, name, GetRelation(r.relations, name).value)
  }

  /** Loading `v` under `name` replaces that relation and nothing else. */
  function Replace(root: Entity, name: string, v: Value): (r: Entity)
    ensures RelationReplaced(root, r, name)
    ensures GetRelation(r.relations, name) == Some(v)
  {
    root.(relations := SetRelation(root.relations, name, v))
  }

  /** What a successful save of `e` into `r` guarantees: same class, an
      integer key, the same loaded relation names in the same order, and every
      attribute other than the key and the class's belongs-to foreign keys
      unchanged. */
  ghost predicate SavedAs(sc: Schema, e: Entity, r: Entity) {
    var cls := ClassOf(sc, e.model);
    && r.model == e.model && r.deepFillable == e.deepFillable
    && KeyOf(sc, r).Int?
    && Names(r.relations) == Names(e.relations)
    && (forall a :: a != cls.keyName && a !in BelongsToKeys(cls) ==> Attr(r, a) == Attr(e, a))
  }

  /** The write log of `db'` extends that of `db` and records the save of `r`
      after the writes of `db`. */
  ghost predicate LoggedAfter(sc: Schema, db: Db, db': Db, r: Entity) {
    db.log <= db'.log && KeyOf(sc, r).Int? && Saved(r.model, KeyOf(sc, r).i) in db'.log[|db.log|..]
  }

  /** A save logged after the writes of `db1` is logged after those of any earlier `db`. */
  lemma LoggedEarlier(sc: Schema, db: Db, db1: Db, db2: Db, r: Entity)
    requires db.log <= db1.log && LoggedAfter(sc, db1, db2, r)
    ensures LoggedAfter(sc, db, db2, r)
  {
    var x := Saved(r.model, KeyOf(sc, r).i);
    var i :| 0 <= i < |db2.log| - |db1.log| && db2.log[|db1.log|..][i] == x;
    assert db2.log[|db.log|..][i + |db1.log| - |db.log|] == x;
  }

  lemma {:induction false} LoggedLater(sc: Schema, db: Db, db1: Db, db2: Db, r: Entity)
    requires LoggedAfter(sc, db, db1, r) && db1.log <= db2.log
    ensures LoggedAfter(sc, db, db2, r)
  {
    var x := Saved(r.model, KeyOf(sc, r).i);
    var i :| 0 <= i < |db1.log| - |db.log| && db1.log[|db.log|..][i] == x;
    assert db2.log[|db.log|..][i] == x;
  }

  // ---------------------------------------------------------------------------
  // The cascade

  /** `method_exists($m, "deepSave") ? $m->deepSave($s) : $m->save()`. */
  function SaveModel(db: Db, sc: Schema, e: Entity, s: Strategy): (o: Outcome)
    decreases Size(e), 7
    ensures db.log <= o.db.log
    ensures o.res.Success? ==> SavedAs(sc, e, o.res.value) && LoggedAfter(sc, db, o.db, o.res.value)
  {
    if ClassOf(sc, e.model).deep then DeepSave(db, sc, e, s)
    else
      var p := Persist(db, sc, e);
      Step(p.0, Success(p.1))
  }

  /** `deepSave($s)`: with `false` a plain save; otherwise the pre-save
      cascade, the save of the model itself, then the post-save cascade. */
  function DeepSave(db: Db, sc: Schema, e: Entity, s: Strategy): (o: Outcome)
    decreases Size(e), 6
    ensures db.log <= o.db.log
    ensures o.res.Success? ==> SavedAs(sc, e, o.res.value) && LoggedAfter(sc, db, o.db, o.res.value)
  {
    if s.False? then
      var p := Persist(db, sc, e);
      PersistSaves(db, sc, e);
      Step(p.0, Success(p.1))
    else
      BeforeReady(e, s);
      var b := BeforeSteps(db, sc, e, s, StrategyRelations(e.relations, s), Size(e));
      if b.res.Failure? then b
      else
        var o := SaveAndAfter(b.db, sc, e, b.res.value, s);
        if o.res.Success? then LoggedEarlier(sc, db, b.db, o.db, o.res.value); o
        else o
  }

  /** The save of the root and the post-save hook, once the pre-save has
      turned `e` into `e1`. */
  function SaveAndAfter(db: Db, sc: Schema, e: Entity, e1: Entity, s: Strategy): (o: Outcome)
    requires BeforeSaved(sc, e, e1)
    decreases Size(e), 5
    ensures db.log <= o.db.log
    ensures o.res.Success? ==> SavedAs(sc, e, o.res.value) && LoggedAfter(sc, db, o.db, o.res.value)
  {
    var p := Persist(db, sc, e1);
    AfterReady(sc, e, e1, p.1, s);
    var a := AfterSteps(p.0, sc, p.1, s, StrategyRelations(p.1.relations, s), Size(e));
    if a.res.Failure? then a
    else
      SaveComposed(sc, db, e, db, e1, p.0, p.1, a.db, a.res.value);
      a
  }

  lemma PersistSaves(db: Db, sc: Schema, e: Entity)
    ensures var p := Persist(db, sc, e); SavedAs(sc, e, p.1) && LoggedAfter(sc, db, p.0, p.1)
  {
    var p := Persist(db, sc, e);
    assert p.0.log[|db.log|..][0] == Saved(e.model, KeyOf(sc, p.1).i);
  }

  /** The relations a save cascades into meet the pre-save loop's bounds. */
  lemma BeforeReady(e: Entity, s: Strategy)
    ensures var items := StrategyRelations(e.relations, s);
      && (forall x :: x in items ==> ValueSize(x.1) < Size(e))
      && (forall x :: x in items ==> x.0 in Names(e.relations))
  {
    LoadedSmaller(e);
    forall x | x in StrategyRelations(e.relations, s) ensures x.0 in Names(e.relations) {
      var i :| 0 <= i < |e.relations| && e.relations[i] == x;
      assert Names(e.relations)[i] == x.0;
    }
  }

  /** After the pre-save and the save, the relations a save cascades into meet
      the post-save loop's bounds: only belongs-to parents can have changed. */
  lemma AfterReady(sc: Schema, e: Entity, e1: Entity, e2: Entity, s: Strategy)
    requires BeforeSaved(sc, e, e1) && e2.model == e1.model && e2.relations == e1.relations
    ensures var items := StrategyRelations(e2.relations, s);
      && (forall x :: x in items ==> ValueSize(x.1) < Size(e) || IsBelongsTo(sc, e2.model, x.0))
      && (forall x :: x in items ==> x.0 in Names(e2.relations))
  {
    LoadedSmaller(e);
    forall x | x in StrategyRelations(e2.relations, s) ensures x.0 in Names(e2.relations) {
      var i :| 0 <= i < |e2.relations| && e2.relations[i] == x;
      assert Names(e2.relations)[i] == x.0;
    }
  }

  /** A pre-save, a save and a post-save together make a save. */
  lemma {:induction false} SaveComposed(sc: Schema, db: Db, e: Entity, db1: Db, e1: Entity, db2: Db, e2: Entity,
                                        db3: Db, e3: Entity)
    requires BeforeSaved(sc, e, e1) && db.log <= db1.log
    requires (db2, e2) == Persist(db1, sc, e1)
    requires AfterSaved(e2, e3) && db2.log <= db3.log
    ensures SavedAs(sc, e, e3) && LoggedAfter(sc, db, db3, e3)
  {
    var cls := ClassOf(sc, e.model);
    assert KeyOf(sc, e3) == KeyOf(sc, e2);
    assert db2.log[|db.log|..][|db1.log| - |db.log|] == Saved(e2.model, KeyOf(sc, e2).i);
    LoggedLater(sc, db, db2, db3, e3);
    forall a | a != cls.keyName && a !in BelongsToKeys(cls) ensures Attr(e3, a) == Attr(e, a) {
      assert Attr(e3, a) == Attr(e2, a) == Attr(e1, a);
    }
  }

  /** The loop of `deepBeforeSave` over the relations still to visit. */
  function BeforeSteps(db: Db, sc: Schema, root: Entity, s: Strategy, items: seq<(string, Value)>,
                       ghost bound: nat): (o: Outcome)
    requires forall x :: x in items ==> ValueSize(x.1) < bound
    requires forall x :: x in items ==> x.0 in Names(root.relations)
    decreases bound, 4, |items|
    ensures db.log <= o.db.log
    ensures o.res.Success? ==> BeforeSaved(sc, root, o.res.value)
  {
    if items == [] then Step(db, Success(root))
    else
      var (name, data) := items[0];
      assert items[0] in items;
      var rel := RelationOf(sc, root.model, name);
      if rel.Some? && rel.value.kind.BelongsTo? && data.Obj? then
        assert ValueSize(data) == Size(data.entity);
        var o := SaveBelongsTo(db, sc, root, name, data.entity, rel.value.kind, Nested(s, name), bound);
        if o.res.Failure? then o
        else BeforeSteps(o.db, sc, o.res.value, s, items[1..], bound)
      else BeforeSteps(db, sc, root, s, items[1..], bound)
  }

  /** What the pre-save hook keeps: the class, the relation names and their
      order, every relation that is not belongs-to, every attribute other than
      the belongs-to foreign keys. */
  ghost predicate BeforeSaved(sc: Schema, root: Entity, r: Entity) {
    && r.model == root.model && r.deepFillable == root.deepFillable
    && Names(r.relations) == Names(root.relations)
    && (forall x :: x in r.relations ==> x in root.relations || IsBelongsTo(sc, root.model, x.0))
    && (forall a :: a !in BelongsToKeys(ClassOf(sc, root.model)) ==> Attr(r, a) == Attr(root, a))
  }

  /** `saveBelongsTo`: save the parent, then copy its owner key into the
      root's foreign key. The saved parent stays loaded on the root (PHP
      mutates the loaded object itself). */
  function SaveBelongsTo(db: Db, sc: Schema, root: Entity, name: string, parent: Entity,
                         kind: RelationKind, nested: Strategy, ghost bound: nat): (o: Outcome)
    requires kind.BelongsTo? && Size(parent) < bound
    decreases bound, 3
    ensures db.log <= o.db.log
    ensures o.res.Success? ==>
      var r := o.res.value;
      var p := GetRelation(r.relations, name);
      && p.Some? && p.value.Obj? && SavedAs(sc, parent, p.value.entity) && LoggedAfter(sc, db, o.db, p.value.entity)
      && r.model == root.model && r.deepFillable == root.deepFillable
      && r.relations == SetRelation(root.relations, name, p.value)
      && r.attrs == root.attrs[kind.foreignKey := Attr(p.value.entity, kind.ownerKey)]
  {
    var p := SaveModel(db, sc, parent, nested);
    if p.res.Failure? then p
    else
      var saved := p.res.value;
      var r := root.(relations := SetRelation(root.relations, name, Obj(saved)));
      Step(p.db, Success(SetAttr(r, kind.foreignKey, Attr(saved, kind.ownerKey))))
  }

  /** The loop of `deepAfterSave` over the relations still to visit. */
  function AfterSteps(db: Db, sc: Schema, root: Entity, s: Strategy, items: seq<(string, Value)>,
                      ghost bound: nat): (o: Outcome)
    requires forall x :: x in items ==> ValueSize(x.1) < bound || IsBelongsTo(sc, root.model, x.0)
    requires forall x :: x in items ==> x.0 in Names(root.relations)
    decreases bound, 4, |items|
    ensures db.log <= o.db.log
    ensures o.res.Success? ==> AfterSaved(root, o.res.value)
  {
    if items == [] then Step(db, Success(root))
    else
      var (name, data) := items[0];
      assert items[0] in items;
      var o := AfterStep(db, sc, root, s, name, data, bound);
      if o.res.Failure? then o
      else AfterSteps(o.db, sc, o.res.value, s, items[1..], bound)
  }

  /** One pass of the `deepAfterSave` loop: the relation `name`, loaded with
      `data`, saved after the root by the method its kind calls for. */
  function AfterStep(db: Db, sc: Schema, root: Entity, s: Strategy, name: string, data: Value,
                     ghost bound: nat): (o: Outcome)
    requires ValueSize(data) < bound || IsBelongsTo(sc, root.model, name)
    requires name in Names(root.relations)
    decreases bound, 4, 0
    ensures db.log <= o.db.log
    ensures o.res.Success? ==> AfterSaved(root, o.res.value)
  {
    var rel := RelationOf(sc, root.model, name);
    var nested := Nested(s, name);
    assert rel.Some? && !rel.value.kind.BelongsTo? ==> ValueSize(data) < bound;
    assert data.Obj? ==> ValueSize(data) == Size(data.entity);
    if rel.None? then Step(db, Success(root))
    else match rel.value.kind
      case HasOne(fk, lk) =>
        if data.Obj? then SaveHasOne(db, sc, root, name, data.entity, fk, lk, nested, bound)
        else Step(db, Success(root))
      case HasMany(fk, lk) => SaveHasMany(db, sc, root, name, data, fk, lk, nested, bound)
      case BelongsToMany(t, qf, qr) => SaveManyMany(db, sc, root, name, data, t, qf, qr, nested, bound)
      case _ => Step(db, Success(root))
  }

  /** What the post-save hook keeps: everything but the values of loaded relations. */
  ghost predicate AfterSaved(root: Entity, r: Entity) {
    r.model == root.model && r.attrs == root.attrs && r.deepFillable == root.deepFillable
    && Names(r.relations) == Names(root.relations)
  }

  /** `saveHasOne`: save the child, then keep it loaded. */
  function SaveHasOne(db: Db, sc: Schema, root: Entity, name: string, child: Entity, fk: string, lk: string,
                      nested: Strategy, ghost bound: nat): (o: Outcome)
    requires Size(child) < bound
    decreases bound, 3
    ensures db.log <= o.db.log
    ensures o.res.Success? ==> RelationReplaced(root, o.res.value, name)
    ensures o.res.Success? ==>
      var v := GetRelation(o.res.value.relations, name);
      v.Some? && v.value.Obj? && Linked(sc, child, v.value.entity, fk, Attr(root, lk))
  {
    var c := SaveHasOneMany(db, sc, root, child, fk, lk, nested, bound);
    if c.res.Failure? then c
    else Step(c.db, Success(Replace(root, name, Obj(c.res.value))))
  }

  /** The foreign key `fk` stamped into an instance of `model` survives its
      save: it is neither the key nor a foreign key the instance's own pre-save
      rewrites. */
  predicate StampKept(sc: Schema, model: string, fk: string) {
    fk != ClassOf(sc, model).keyName && fk !in BelongsToKeys(ClassOf(sc, model))
  }

  /** `c` is the saved form of `child` with the parent's key `key` stamped
      into its foreign key `fk`. */
  ghost predicate Linked(sc: Schema, child: Entity, c: Entity, fk: string, key: Value) {
    && SavedAs(sc, child.(attrs := child.attrs[fk := key]), c)
    && (StampKept(sc, child.model, fk) ==> Attr(c, fk) == key)
  }

  /** `saveHasOneManyRelation`: stamp the parent key into the child's foreign
      key, then save the child. */
  function SaveHasOneMany(db: Db, sc: Schema, root: Entity, child: Entity, fk: string, lk: string,
                          nested: Strategy, ghost bound: nat): (o: Outcome)
    requires Size(child) < bound
    decreases bound, 1
    ensures db.log <= o.db.log
    ensures o.res.Success? ==> Linked(sc, child, o.res.value, fk, Attr(root, lk)) && LoggedAfter(sc, db, o.db, o.res.value)
  {
    var stamped := SetAttr(child, fk, Attr(root, lk));
    assert Size(stamped) == Size(child) by { assert stamped.relations == child.relations; RelationsSizeSame(stamped, child, 0); }
    SaveModel(db, sc, stamped, nested)
  }

  lemma {:induction false} RelationsSizeSame(a: Entity, b: Entity, i: nat)
    requires a.relations == b.relations
    ensures RelationsSize(a, i) == RelationsSize(b, i)
    decreases |a.relations| - i
  {
    if i < |a.relations| { RelationsSizeSame(a, b, i + 1); }
  }

  /** `saveHasMany`: save every element as a has-one child, keep the keys. */
  function SaveHasMany(db: Db, sc: Schema, root: Entity, name: string, data: Value, fk: string, lk: string,
                       nested: Strategy, ghost bound: nat): (o: Outcome)
    requires ValueSize(data) < bound
    decreases bound, 3
    ensures db.log <= o.db.log
    ensures o.res.Success? ==> RelationReplaced(root, o.res.value, name)
  {
    ElementsSmaller(data);
    var c := HasManySteps(db, sc, root, Elements(data), fk, lk, nested, [], bound);
    if c.res.Failure? then Step(c.db, Failure(c.res.error))
    else Step(c.db, Success(Replace(root, name, Arr(c.res.value))))
  }

  /** The `foreach` of `saveHasMany`: `acc` holds the saved elements so far. */
  function HasManySteps(db: Db, sc: Schema, root: Entity, items: seq<(Key, Value)>, fk: string, lk: string,
                        nested: Strategy, acc: seq<(Key, Value)>, ghost bound: nat): (o: Step<seq<(Key, Value)>>)
    requires forall x :: x in items ==> ValueSize(x.1) < bound
    decreases bound, 2, |items|
    ensures db.log <= o.db.log
  {
    if items == [] then Step(db, Success(acc))
    else
      var (k, d) := items[0];
      assert items[0] in items;
      if !d.Obj? then Step(db, Failure(NotAnEntity))
      else
        assert ValueSize(d) == Size(d.entity);
        var c := SaveHasOneMany(db, sc, root, d.entity, fk, lk, nested, bound);
        if c.res.Failure? then Step(c.db, Failure(c.res.error))
        else HasManySteps(c.db, sc, root, items[1..], fk, lk, nested, acc + [(k, Obj(c.res.value))], bound)
  }

  /** `saveManyMany`: wipe the owner's pivot rows, drop falsy elements, save
      each remaining element and insert one pivot row per element. */
  function SaveManyMany(db: Db, sc: Schema, root: Entity, name: string, data: Value, table: string,
                        qf: string, qr: string, nested: Strategy, ghost bound: nat): (o: Outcome)
    requires ValueSize(data) < bound
    decreases bound, 3
    ensures db.log <= o.db.log
    ensures o.res.Success? ==> RelationReplaced(root, o.res.value, name)
  {
    var ownerCol := ColumnSuffix(qf);
    var relatedCol := ColumnSuffix(qr);
    var wiped := DeletePivots(db, table, ownerCol, KeyOf(sc, root));
    var kept := FilterTruthy(Elements(data));
    KeptSmaller(data, bound);
    if kept == [] then
      Step(wiped, Success(Replace(root, name, ListOf([]))))
    else
      var c := ManyManySteps(wiped, sc, root, kept, ownerCol, relatedCol, nested, [], [], table, bound);
      if c.res.Failure? then Step(c.db, Failure(c.res.error))
      else
        var (saved, rows) := c.res.value;
        Step(InsertPivots(c.db, table, rows),
             Success(Replace(root, name, ListOf(saved))))
  }

  /** The pivot row `[ownerCol => ownerKey, relatedCol => relatedKey]`. */
  function PivotOf(table: string, ownerCol: string, ownerKey: Value, relatedCol: string, relatedKey: Value): PivotRow {
    PivotRow(table, map[ownerCol := ownerKey][relatedCol := relatedKey])
  }

  /** The `foreach` of `saveManyMany`: the saved elements and pivot rows so far. */
  function ManyManySteps(db: Db, sc: Schema, root: Entity, items: seq<(Key, Value)>, ownerCol: string,
                         relatedCol: string, nested: Strategy, saved: seq<Value>, rows: seq<PivotRow>,
                         table: string, ghost bound: nat): (o: Step<(seq<Value>, seq<PivotRow>)>)
    requires forall x :: x in items ==> ValueSize(x.1) < bound
    decreases bound, 2, |items|
    ensures db.log <= o.db.log
  {
    if items == [] then Step(db, Success((saved, rows)))
    else
      var d := items[0].1;
      assert items[0] in items;
      if !d.Obj? then Step(db, Failure(NotAnEntity))
      else
        assert ValueSize(d) == Size(d.entity);
        var c := SaveModel(db, sc, d.entity, nested);
        if c.res.Failure? then Step(c.db, Failure(c.res.error))
        else
          var row := PivotOf(table, ownerCol, KeyOf(sc, root), relatedCol, KeyOf(sc, c.res.value));
          ManyManySteps(c.db, sc, root, items[1..], ownerCol, relatedCol, nested,
                        saved + [Obj(c.res.value)], rows + [row], table, bound)
  }
}
