/** The save cascade as the program runs it: methods that write to a `Store`
    step by step, each proved to leave the store and return the result its
    counterpart in `Cascade` specifies. */
module Saving {
  import opened Values
  import opened Schema
  import opened Strategy
  import opened Persistence
  import Cascade

  /** `method_exists($m, "deepSave") ? $m->deepSave($s) : $m->save()`. */
  method SaveModel(store: Store, e: Entity, s: Strategy) returns (r: Result<Entity>)
    modifies store
    decreases Cascade.Size(e), 6
    ensures Cascade.Step(store.State(), r) == Cascade.SaveModel(old(store.State()), store.schema, e, s)
  {
    if ClassOf(store.schema, e.model).deep {
      r := DeepSave(store, e, s);
    } else {
      var saved := store.Save(e);
      r := Success(saved);
    }
  }

  /** `deepSave($s)`: the `saving` listener, the save, the `saved` listener. */
  method DeepSave(store: Store, e: Entity, s: Strategy) returns (r: Result<Entity>)
    modifies store
    decreases Cascade.Size(e), 5
    ensures Cascade.Step(store.State(), r) == Cascade.DeepSave(old(store.State()), store.schema, e, s)
  {
    if s.False? {
      var saved := store.Save(e);
      return Success(saved);
    }
    Cascade.BeforeReady(e, s);
    var b := DeepBeforeSave(store, e, s, StrategyRelations(e.relations, s), Cascade.Size(e));
    if b.Failure? {
      return b;
    }
    var saved := store.Save(b.value);
    Cascade.AfterReady(store.schema, e, b.value, saved, s);
    r := DeepAfterSave(store, saved, s, StrategyRelations(saved.relations, s), Cascade.Size(e));
  }

  /** `deepBeforeSave`: save each loaded belongs-to parent, then copy its key. */
  method DeepBeforeSave(store: Store, root: Entity, s: Strategy, items: seq<(string, Value)>, ghost bound: nat)
    returns (r: Result<Entity>)
    requires forall x :: x in items ==> Cascade.ValueSize(x.1) < bound
    requires forall x :: x in items ==> x.0 in Names(root.relations)
    modifies store
    decreases bound, 4
    ensures Cascade.Step(store.State(), r) == Cascade.BeforeSteps(old(store.State()), store.schema, root, s, items, bound)
  {
    var cur := root;
    var rest := items;
    while rest != []
      invariant cur.model == root.model && Names(cur.relations) == Names(root.relations)
      invariant forall x :: x in rest ==> x in items
      invariant Cascade.BeforeSteps(old(store.State()), store.schema, root, s, items, bound)
                == Cascade.BeforeSteps(store.State(), store.schema, cur, s, rest, bound)
      decreases |rest|
    {
      var (name, data) := rest[0];
      assert rest[0] in rest && forall x :: x in rest[1..] ==> x in rest;
      var rel := RelationOf(store.schema, cur.model, name);
      if rel.Some? && rel.value.kind.BelongsTo? && data.Obj? {
        assert Cascade.ValueSize(data) == Cascade.Size(data.entity);
        var o := SaveBelongsTo(store, cur, name, data.entity, rel.value.kind, Nested(s, name), bound);
        if o.Failure? {
          return o;
        }
        cur := o.value;
      }
      rest := rest[1..];
    }
    r := Success(cur);
  }

  /** `saveBelongsTo`: save the parent, then `associate` it. */
  method SaveBelongsTo(store: Store, root: Entity, name: string, parent: Entity, kind: RelationKind,
                       nested: Strategy, ghost bound: nat) returns (r: Result<Entity>)
    requires kind.BelongsTo? && Cascade.Size(parent) < bound
    modifies store
    decreases bound, 3
    ensures Cascade.Step(store.State(), r)
            == Cascade.SaveBelongsTo(old(store.State()), store.schema, root, name, parent, kind, nested, bound)
  {
    var p := SaveModel(store, parent, nested);
    if p.Failure? {
      return p;
    }
    var saved := p.value;
    var e := root.(relations := SetRelation(root.relations, name, Obj(saved)));
    r := Success(SetAttr(e, kind.foreignKey, Attr(saved, kind.ownerKey)));
  }

  /** `deepAfterSave`: save each loaded child relation by its kind. */
  method DeepAfterSave(store: Store, root: Entity, s: Strategy, items: seq<(string, Value)>, ghost bound: nat)
    returns (r: Result<Entity>)
    requires forall x :: x in items ==> Cascade.ValueSize(x.1) < bound || IsBelongsTo(store.schema, root.model, x.0)
    requires forall x :: x in items ==> x.0 in Names(root.relations)
    modifies store
    decreases bound, 4, 1
    ensures Cascade.Step(store.State(), r) == Cascade.AfterSteps(old(store.State()), store.schema, root, s, items, bound)
  {
    var cur := root;
    var rest := items;
    while rest != []
      invariant cur.model == root.model && Names(cur.relations) == Names(root.relations)
      invariant forall x :: x in rest ==> x in items
      invariant Cascade.AfterSteps(old(store.State()), store.schema, root, s, items, bound)
                == Cascade.AfterSteps(store.State(), store.schema, cur, s, rest, bound)
      decreases |rest|
    {
      var (name, data) := rest[0];
      assert rest[0] in rest && forall x :: x in rest[1..] ==> x in rest;
      var o := AfterStep(store, cur, s, name, data, bound);
      if o.Failure? {
        return o;
      }
      cur := o.value;
      rest := rest[1..];
    }
    r := Success(cur);
  }

  /** One pass of the `deepAfterSave` loop. */
  method AfterStep(store: Store, root: Entity, s: Strategy, name: string, data: Value, ghost bound: nat)
    returns (r: Result<Entity>)
    requires Cascade.ValueSize(data) < bound || IsBelongsTo(store.schema, root.model, name)
    requires name in Names(root.relations)
    modifies store
    decreases bound, 4, 0
    ensures Cascade.Step(store.State(), r) == Cascade.AfterStep(old(store.State()), store.schema, root, s, name, data, bound)
  {
    ghost var db := store.State();
    var sc := store.schema;
    var rel := RelationOf(sc, root.model, name);
    var nested := Nested(s, name);
    if rel.None? {
      return Success(root);
    }
    assert !rel.value.kind.BelongsTo? ==> Cascade.ValueSize(data) < bound;
    match rel.value.kind
    case HasOne(fk, lk) =>
      if data.Obj? {
        assert Cascade.ValueSize(data) == Cascade.Size(data.entity);
        assert Cascade.AfterStep(db, sc, root, s, name, data, bound)
               == Cascade.SaveHasOne(db, sc, root, name, data.entity, fk, lk, nested, bound);
        r := SaveHasOne(store, root, name, data.entity, fk, lk, nested, bound);
      } else {
        r := Success(root);
      }
    case HasMany(fk, lk) =>
      assert Cascade.AfterStep(db, sc, root, s, name, data, bound)
             == Cascade.SaveHasMany(db, sc, root, name, data, fk, lk, nested, bound);
      r := SaveHasMany(store, root, name, data, fk, lk, nested, bound);
    case BelongsToMany(t, qf, qr) =>
      assert Cascade.AfterStep(db, sc, root, s, name, data, bound)
             == Cascade.SaveManyMany(db, sc, root, name, data, t, qf, qr, nested, bound);
      r := SaveManyMany(store, root, name, data, t, qf, qr, nested, bound);
    case _ =>
      r := Success(root);
  }

  /** `saveHasOne`. */
  method SaveHasOne(store: Store, root: Entity, name: string, child: Entity, fk: string, lk: string,
                    nested: Strategy, ghost bound: nat) returns (r: Result<Entity>)
    requires Cascade.Size(child) < bound
    modifies store
    decreases bound, 3
    ensures Cascade.Step(store.State(), r)
            == Cascade.SaveHasOne(old(store.State()), store.schema, root, name, child, fk, lk, nested, bound)
  {
    var c := SaveHasOneMany(store, root, child, fk, lk, nested, bound);
    if c.Failure? {
      return c;
    }
    r := Success(Cascade.Replace(root, name, Obj(c.value)));
  }

  /** `saveHasOneManyRelation`: stamp the parent's key, then save the child. */
  method SaveHasOneMany(store: Store, root: Entity, child: Entity, fk: string, lk: string,
                        nested: Strategy, ghost bound: nat) returns (r: Result<Entity>)
    requires Cascade.Size(child) < bound
    modifies store
    decreases bound, 1
    ensures Cascade.Step(store.State(), r)
            == Cascade.SaveHasOneMany(old(store.State()), store.schema, root, child, fk, lk, nested, bound)
  {
    var stamped := SetAttr(child, fk, Attr(root, lk));
    assert Cascade.Size(stamped) == Cascade.Size(child) by {
      Cascade.RelationsSizeSame(stamped, child, 0);
    }
    r := SaveModel(store, stamped, nested);
  }

  /** `saveHasMany`: the `foreach` over the loaded elements. */
  method SaveHasMany(store: Store, root: Entity, name: string, data: Value, fk: string, lk: string,
                     nested: Strategy, ghost bound: nat) returns (r: Result<Entity>)
    requires Cascade.ValueSize(data) < bound
    modifies store
    decreases bound, 3
    ensures Cascade.Step(store.State(), r)
            == Cascade.SaveHasMany(old(store.State()), store.schema, root, name, data, fk, lk, nested, bound)
  {
    Cascade.ElementsSmaller(data);
    var items := Cascade.Elements(data);
    var acc: seq<(Key, Value)> := [];
    var rest := items;
    while rest != []
      invariant forall x :: x in rest ==> x in items
      invariant Cascade.HasManySteps(old(store.State()), store.schema, root, items, fk, lk, nested, [], bound)
                == Cascade.HasManySteps(store.State(), store.schema, root, rest, fk, lk, nested, acc, bound)
      decreases |rest|
    {
      var (k, d) := rest[0];
      assert rest[0] in rest && forall x :: x in rest[1..] ==> x in rest;
      if !d.Obj? {
        return Failure(NotAnEntity);
      }
      assert Cascade.ValueSize(d) == Cascade.Size(d.entity);
      var c := SaveHasOneMany(store, root, d.entity, fk, lk, nested, bound);
      if c.Failure? {
        return Failure(c.error);
      }
      acc := acc + [(k, Obj(c.value))];
      rest := rest[1..];
    }
    r := Success(Cascade.Replace(root, name, Arr(acc)));
  }

  /** `saveManyMany`: wipe the owner's pivot rows, save each truthy element,
      insert the new pivot rows in one statement. */
  method SaveManyMany(store: Store, root: Entity, name: string, data: Value, table: string,
                      qf: string, qr: string, nested: Strategy, ghost bound: nat) returns (r: Result<Entity>)
    requires Cascade.ValueSize(data) < bound
    modifies store
    decreases bound, 3
    ensures Cascade.Step(store.State(), r)
            == Cascade.SaveManyMany(old(store.State()), store.schema, root, name, data, table, qf, qr, nested, bound)
  {
    var ownerCol := Cascade.ColumnSuffix(qf);
    var relatedCol := Cascade.ColumnSuffix(qr);
    var ownerKey := KeyOf(store.schema, root);
    store.DeleteWhere(table, ownerCol, ownerKey);
    var kept := Cascade.FilterTruthy(Cascade.Elements(data));
    Cascade.KeptSmaller(data, bound);
    if kept == [] {
      return Success(Cascade.Replace(root, name, ListOf([])));
    }
    var c := ManyManyLoop(store, root, kept, ownerCol, relatedCol, nested, table, bound);
    if c.Failure? {
      return Failure(c.error);
    }
    var (saved, rows) := c.value;
    store.Insert(table, rows);
    r := Success(Cascade.Replace(root, name, ListOf(saved)));
  }

  /** The `foreach` of `saveManyMany`: save each element, collect the pivot rows. */
  method ManyManyLoop(store: Store, root: Entity, kept: seq<(Key, Value)>, ownerCol: string, relatedCol: string,
                      nested: Strategy, table: string, ghost bound: nat)
    returns (r: Result<(seq<Value>, seq<PivotRow>)>)
    requires forall x :: x in kept ==> Cascade.ValueSize(x.1) < bound
    modifies store
    decreases bound, 2
    ensures Cascade.Step(store.State(), r)
            == Cascade.ManyManySteps(old(store.State()), store.schema, root, kept, ownerCol, relatedCol, nested,
                                     [], [], table, bound)
  {
    var ownerKey := KeyOf(store.schema, root);
    var saved: seq<Value> := [];
    var rows: seq<PivotRow> := [];
    var rest := kept;
    while rest != []
      invariant forall x :: x in rest ==> x in kept
      invariant Cascade.ManyManySteps(old(store.State()), store.schema, root, kept, ownerCol, relatedCol, nested,
                                      [], [], table, bound)
                == Cascade.ManyManySteps(store.State(), store.schema, root, rest, ownerCol, relatedCol, nested,
                                         saved, rows, table, bound)
      decreases |rest|
    {
      var d := rest[0].1;
      assert rest[0] in rest && forall x :: x in rest[1..] ==> x in rest;
      if !d.Obj? {
        return Failure(NotAnEntity);
      }
      assert Cascade.ValueSize(d) == Cascade.Size(d.entity);
      var c := SaveModel(store, d.entity, nested);
      if c.Failure? {
        return Failure(c.error);
      }
      rows := rows + [Cascade.PivotOf(table, ownerCol, ownerKey, relatedCol, KeyOf(store.schema, c.value))];
      saved := saved + [Obj(c.value)];
      rest := rest[1..];
    }
    r := Success((saved, rows));
  }
}
