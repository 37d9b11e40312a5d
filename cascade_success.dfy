/** When the save cascade succeeds. The pre-save and post-save hooks skip
    every relation they cannot act on, every plain `save()` succeeds, and so
    a cascade fails only on a has-many element that is not a model (the
    typed parameter of `saveHasOneManyRelation`) or on a truthy many-to-many
    element that is not one (`method_exists` and `save()` on a non-object). */
module CascadeSuccess {
  import opened Values
  import opened Schema
  import opened Strategy
  import opened Persistence
  import opened Cascade

  // ---------------------------------------------------------------------------
  // The condition

  /** Every element a save of `e` with the strategy `s` cascades into is a
      model, down the tree of selected relations with the nested strategy.
      A class without the trait, and the strategy `false`, cascade into none. */
  ghost predicate Saveable(sc: Schema, e: Entity, s: Strategy)
    decreases Size(e), 1
  {
    ClassOf(sc, e.model).deep && s.Map? ==>
      (BeforeReady(e, s);
       forall x :: x in StrategyRelations(e.relations, s) ==>
         RelationSaveable(sc, e.model, x.0, x.1, Nested(s, x.0)))
  }

  /** The relation `name` of a model of class `model`, loaded with `data`,
      meets `Saveable` when saved with the strategy `nested`: a loaded parent
      or has-one child meets it itself, every has-many element and every
      truthy many-to-many element is a model that meets it. */
  ghost predicate RelationSaveable(sc: Schema, model: string, name: string, data: Value, nested: Strategy)
    decreases ValueSize(data), 2
  {
    var rel := RelationOf(sc, model, name);
    rel.Some? ==>
      match rel.value.kind
      case BelongsTo(_, _) => data.Obj? ==> Saveable(sc, data.entity, nested)
      case HasOne(_, _) => data.Obj? ==> Saveable(sc, data.entity, nested)
      case HasMany(_, _) =>
        ElementsSmaller(data);
        forall x :: x in Elements(data) ==> x.1.Obj? && Saveable(sc, x.1.entity, nested)
      case BelongsToMany(_, _, _) =>
        ElementsSmaller(data);
        forall x :: x in FilterTruthy(Elements(data)) ==> x.1.Obj? && Saveable(sc, x.1.entity, nested)
      case OtherKind => true
  }

  /** Stamping an attribute into a model does not change whether it is saveable. */
  lemma SaveableStamped(sc: Schema, e: Entity, s: Strategy, a: string, v: Value)
    requires Saveable(sc, e, s)
    ensures Saveable(sc, SetAttr(e, a, v), s)
    ensures Size(SetAttr(e, a, v)) == Size(e)
  {
    RelationsSizeSame(SetAttr(e, a, v), e, 0);
  }

  // ---------------------------------------------------------------------------
  // The condition suffices

  /** A save of a saveable tree succeeds, from any state of the database. */
  lemma {:induction false} SaveSucceeds(db: Db, sc: Schema, e: Entity, s: Strategy)
    requires Saveable(sc, e, s)
    decreases Size(e), 7
    ensures SaveModel(db, sc, e, s).res.Success?
  {
    if ClassOf(sc, e.model).deep && s.Map? {
      BeforeReady(e, s);
      var items := StrategyRelations(e.relations, s);
      BeforeSucceeds(db, sc, e, s, items, Size(e));
      var b := BeforeSteps(db, sc, e, s, items, Size(e));
      SaveAndAfterSucceeds(b.db, sc, e, b.res.value, s);
    }
  }

  /** Once the pre-save is done, the save of the root and the post-save of a
      saveable tree succeed. */
  lemma {:induction false} SaveAndAfterSucceeds(db: Db, sc: Schema, e: Entity, e1: Entity, s: Strategy)
    requires BeforeSaved(sc, e, e1) && Saveable(sc, e, s) && ClassOf(sc, e.model).deep && s.Map?
    decreases Size(e), 5
    ensures SaveAndAfter(db, sc, e, e1, s).res.Success?
  {
    var p := Persist(db, sc, e1);
    AfterReady(sc, e, e1, p.1, s);
    var items := StrategyRelations(p.1.relations, s);
    forall x | x in items
      ensures IsBelongsTo(sc, p.1.model, x.0) || RelationSaveable(sc, p.1.model, x.0, x.1, Nested(s, x.0))
    {
      if !IsBelongsTo(sc, p.1.model, x.0) {
        assert x in StrategyRelations(e.relations, s);
      }
    }
    AfterSucceeds(p.0, sc, p.1, s, items, Size(e));
  }

  /** The pre-save loop succeeds when every parent it visits is saveable. */
  lemma {:induction false} BeforeSucceeds(db: Db, sc: Schema, root: Entity, s: Strategy,
                                          items: seq<(string, Value)>, bound: nat)
    requires forall x :: x in items ==> ValueSize(x.1) < bound
    requires forall x :: x in items ==> x.0 in Names(root.relations)
    requires forall x :: x in items ==> RelationSaveable(sc, root.model, x.0, x.1, Nested(s, x.0))
    decreases bound, 4, |items|
    ensures BeforeSteps(db, sc, root, s, items, bound).res.Success?
  {
    if items != [] {
      var (name, data) := items[0];
      assert items[0] in items;
      assert forall x :: x in items[1..] ==> x in items;
      var rel := RelationOf(sc, root.model, name);
      if rel.Some? && rel.value.kind.BelongsTo? && data.Obj? {
        assert ValueSize(data) == Size(data.entity);
        SaveSucceeds(db, sc, data.entity, Nested(s, name));
        var o := SaveBelongsTo(db, sc, root, name, data.entity, rel.value.kind, Nested(s, name), bound);
        BeforeSucceeds(o.db, sc, o.res.value, s, items[1..], bound);
      } else {
        BeforeSucceeds(db, sc, root, s, items[1..], bound);
      }
    }
  }

  /** The post-save loop succeeds when every child it visits is saveable;
      belongs-to relations are skipped there. */
  lemma {:induction false} AfterSucceeds(db: Db, sc: Schema, root: Entity, s: Strategy,
                                         items: seq<(string, Value)>, bound: nat)
    requires forall x :: x in items ==> ValueSize(x.1) < bound || IsBelongsTo(sc, root.model, x.0)
    requires forall x :: x in items ==> x.0 in Names(root.relations)
    requires forall x :: x in items ==>
      IsBelongsTo(sc, root.model, x.0) || RelationSaveable(sc, root.model, x.0, x.1, Nested(s, x.0))
    decreases bound, 4, |items|
    ensures AfterSteps(db, sc, root, s, items, bound).res.Success?
  {
    if items != [] {
      var (name, data) := items[0];
      assert items[0] in items;
      assert forall x :: x in items[1..] ==> x in items;
      AfterStepSucceeds(db, sc, root, s, name, data, bound);
      var o := AfterStep(db, sc, root, s, name, data, bound);
      AfterSucceeds(o.db, sc, o.res.value, s, items[1..], bound);
    }
  }

  /** One pass of the post-save loop succeeds on a saveable relation. */
  lemma {:induction false} AfterStepSucceeds(db: Db, sc: Schema, root: Entity, s: Strategy, name: string,
                                             data: Value, bound: nat)
    requires ValueSize(data) < bound || IsBelongsTo(sc, root.model, name)
    requires name in Names(root.relations)
    requires IsBelongsTo(sc, root.model, name) || RelationSaveable(sc, root.model, name, data, Nested(s, name))
    decreases bound, 4, 0
    ensures AfterStep(db, sc, root, s, name, data, bound).res.Success?
  {
    var rel := RelationOf(sc, root.model, name);
    var nested := Nested(s, name);
    if rel.Some? {
      match rel.value.kind
      case HasOne(fk, lk) =>
        if data.Obj? {
          assert ValueSize(data) == Size(data.entity);
          SaveableStamped(sc, data.entity, nested, fk, Attr(root, lk));
          SaveSucceeds(db, sc, SetAttr(data.entity, fk, Attr(root, lk)), nested);
          assert SaveHasOneMany(db, sc, root, data.entity, fk, lk, nested, bound).res.Success?;
        }
      case HasMany(fk, lk) =>
        ElementsSmaller(data);
        HasManySucceeds(db, sc, root, Elements(data), fk, lk, nested, [], bound);
      case BelongsToMany(t, qf, qr) =>
        KeptSmaller(data, bound);
        var kept := FilterTruthy(Elements(data));
        if kept != [] {
          var wiped := DeletePivots(db, t, ColumnSuffix(qf), KeyOf(sc, root));
          ManyManySucceeds(wiped, sc, root, kept, ColumnSuffix(qf), ColumnSuffix(qr), nested, [], [], t, bound);
        }
      case BelongsTo(_, _) =>
      case OtherKind =>
    }
  }

  /** The loop of `saveHasMany` succeeds when every element is a saveable model. */
  lemma {:induction false} HasManySucceeds(db: Db, sc: Schema, root: Entity, items: seq<(Key, Value)>, fk: string,
                                           lk: string, nested: Strategy, acc: seq<(Key, Value)>, bound: nat)
    requires forall x :: x in items ==> ValueSize(x.1) < bound
    requires forall x :: x in items ==> x.1.Obj? && Saveable(sc, x.1.entity, nested)
    decreases bound, 2, |items|
    ensures HasManySteps(db, sc, root, items, fk, lk, nested, acc, bound).res.Success?
  {
    if items != [] {
      var (k, d) := items[0];
      assert items[0] in items;
      assert forall x :: x in items[1..] ==> x in items;
      assert ValueSize(d) == Size(d.entity);
      SaveableStamped(sc, d.entity, nested, fk, Attr(root, lk));
      SaveSucceeds(db, sc, SetAttr(d.entity, fk, Attr(root, lk)), nested);
      var c := SaveHasOneMany(db, sc, root, d.entity, fk, lk, nested, bound);
      HasManySucceeds(c.db, sc, root, items[1..], fk, lk, nested, acc + [(k, Obj(c.res.value))], bound);
    }
  }

  /** The loop of `saveManyMany` succeeds when every element is a saveable model. */
  lemma {:induction false} ManyManySucceeds(db: Db, sc: Schema, root: Entity, items: seq<(Key, Value)>,
                                            ownerCol: string, relatedCol: string, nested: Strategy,
                                            saved: seq<Value>, rows: seq<PivotRow>, table: string, bound: nat)
    requires forall x :: x in items ==> ValueSize(x.1) < bound
    requires forall x :: x in items ==> x.1.Obj? && Saveable(sc, x.1.entity, nested)
    decreases bound, 2, |items|
    ensures ManyManySteps(db, sc, root, items, ownerCol, relatedCol, nested, saved, rows, table, bound).res.Success?
  {
    if items != [] {
      var d := items[0].1;
      assert items[0] in items;
      assert forall x :: x in items[1..] ==> x in items;
      assert ValueSize(d) == Size(d.entity);
      SaveSucceeds(db, sc, d.entity, nested);
      var c := SaveModel(db, sc, d.entity, nested);
      var row := PivotOf(table, ownerCol, KeyOf(sc, root), relatedCol, KeyOf(sc, c.res.value));
      ManyManySucceeds(c.db, sc, root, items[1..], ownerCol, relatedCol, nested,
                       saved + [Obj(c.res.value)], rows + [row], table, bound);
    }
  }

  /** A to-one step succeeds exactly when the save of its model does:
      `saveBelongsTo`, `saveHasOneManyRelation` and `saveHasOne` add no error
      of their own. */
  lemma ToOneSucceeds(db: Db, sc: Schema, root: Entity, name: string, child: Entity, kind: RelationKind,
                      fk: string, lk: string, nested: Strategy, bound: nat)
    requires kind.BelongsTo? && Size(child) < bound
    ensures SaveBelongsTo(db, sc, root, name, child, kind, nested, bound).res.Success? <==>
            SaveModel(db, sc, child, nested).res.Success?
    ensures SaveHasOneMany(db, sc, root, child, fk, lk, nested, bound).res.Success? <==>
            SaveModel(db, sc, SetAttr(child, fk, Attr(root, lk)), nested).res.Success?
    ensures SaveHasOne(db, sc, root, name, child, fk, lk, nested, bound).res.Success? <==>
            SaveHasOneMany(db, sc, root, child, fk, lk, nested, bound).res.Success?
  {
  }

  /** `deepSave` of a saveable tree succeeds. */
  lemma DeepSaveSucceeds(db: Db, sc: Schema, e: Entity, s: Strategy)
    requires Saveable(sc, e, s) && ClassOf(sc, e.model).deep
    ensures DeepSave(db, sc, e, s).res.Success?
  {
    SaveSucceeds(db, sc, e, s);
  }

  // ---------------------------------------------------------------------------
  // Where the cascade fails

  /** `saveHasMany` fails on an element that is not a model, once the
      elements before it are saved. */
  lemma {:induction false} HasManyFails(db: Db, sc: Schema, root: Entity, items: seq<(Key, Value)>, fk: string,
                                        lk: string, nested: Strategy, acc: seq<(Key, Value)>, bound: nat)
    requires forall x :: x in items ==> ValueSize(x.1) < bound
    requires exists x :: x in items && !x.1.Obj?
    decreases |items|
    ensures HasManySteps(db, sc, root, items, fk, lk, nested, acc, bound).res.Failure?
  {
    var (k, d) := items[0];
    assert items[0] in items;
    assert forall x :: x in items[1..] ==> x in items;
    if d.Obj? {
      assert ValueSize(d) == Size(d.entity);
      var c := SaveHasOneMany(db, sc, root, d.entity, fk, lk, nested, bound);
      if c.res.Success? {
        var x :| x in items && !x.1.Obj?;
        assert x in items[1..] by { assert items == [items[0]] + items[1..]; }
        HasManyFails(c.db, sc, root, items[1..], fk, lk, nested, acc + [(k, Obj(c.res.value))], bound);
      }
    }
  }

  /** `saveManyMany` fails on a truthy element that is not a model, once the
      elements before it are saved. */
  lemma {:induction false} ManyManyFails(db: Db, sc: Schema, root: Entity, items: seq<(Key, Value)>,
                                         ownerCol: string, relatedCol: string, nested: Strategy,
                                         saved: seq<Value>, rows: seq<PivotRow>, table: string, bound: nat)
    requires forall x :: x in items ==> ValueSize(x.1) < bound
    requires exists x :: x in items && !x.1.Obj?
    decreases |items|
    ensures ManyManySteps(db, sc, root, items, ownerCol, relatedCol, nested, saved, rows, table, bound).res.Failure?
  {
    var d := items[0].1;
    assert items[0] in items;
    assert forall x :: x in items[1..] ==> x in items;
    if d.Obj? {
      assert ValueSize(d) == Size(d.entity);
      var c := SaveModel(db, sc, d.entity, nested);
      if c.res.Success? {
        var x :| x in items && !x.1.Obj?;
        assert x in items[1..] by { assert items == [items[0]] + items[1..]; }
        var row := PivotOf(table, ownerCol, KeyOf(sc, root), relatedCol, KeyOf(sc, c.res.value));
        ManyManyFails(c.db, sc, root, items[1..], ownerCol, relatedCol, nested,
                      saved + [Obj(c.res.value)], rows + [row], table, bound);
      }
    }
  }
}
