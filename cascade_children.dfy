/** What the post-save of the cascade leaves in the relations it visits: each
    has-one or has-many child saved with the root's key stamped into it, each
    many-to-many relation holding its saved elements, anything else as it was. */
module CascadeChildren {
  import opened Values
  import opened Schema
  import opened Strategy
  import opened Persistence
  import opened Cascade
  import opened CascadeFacts
  import opened CascadeLinks

  /** The relation `name` of `r`, after the post-save of `root` with the
      strategy `s`, which had it loaded with `data`: a has-one child or each
      has-many child is saved with the root's key stamped in, a many-to-many
      relation holds its saved truthy elements in order, each of them saved
      with the strategy `s` nests under `name` after the writes of `db`, and
      any other relation is left as it was on `root`. */
  ghost predicate ChildLinked(sc: Schema, s: Strategy, db: Db, db': Db, root: Entity, r: Entity, name: string,
                              data: Value) {
    var rel := RelationOf(sc, r.model, name);
    var v := GetRelation(r.relations, name);
    if rel.Some? && rel.value.kind.HasOne? && data.Obj? then
      var key := Attr(r, rel.value.kind.localKey);
      && v.Some? && v.value.Obj?
      && Linked(sc, data.entity, v.value.entity, rel.value.kind.foreignKey, key)
      && SavedBetween(sc, Nested(s, name), db, db', SetAttr(data.entity, rel.value.kind.foreignKey, key), v.value.entity)
    else if rel.Some? && rel.value.kind.HasMany? then
      && v.Some? && v.value.Arr? && KeysOf(v.value.entries) == KeysOf(Elements(data))
      && LinkedEntries(sc, Nested(s, name), db, db', Elements(data), v.value.entries, rel.value.kind.foreignKey,
                       Attr(r, rel.value.kind.localKey))
    else if rel.Some? && rel.value.kind.BelongsToMany? then
      && v.Some? && v.value.Arr? && IsList(v.value.entries)
      && SavedElems(sc, Nested(s, name), db, db', FilterTruthy(Elements(data)), ValuesOf(v.value.entries))
    else
      v == GetRelation(root.relations, name)
  }

  /** One pass of the post-save loop links the relation it visits and leaves
      every other relation as it was. */
  lemma AfterStepLinked(db: Db, sc: Schema, root: Entity, s: Strategy, name: string, data: Value, bound: nat)
    requires ValueSize(data) < bound || IsBelongsTo(sc, root.model, name)
    requires name in Names(root.relations)
    ensures var o := AfterStep(db, sc, root, s, name, data, bound);
      o.res.Success? ==>
        && ChildLinked(sc, s, db, o.db, root, o.res.value, name, data)
        && (forall n :: n != name || IsBelongsTo(sc, root.model, n) ==>
              GetRelation(o.res.value.relations, n) == GetRelation(root.relations, n))
  {
    var rel := RelationOf(sc, root.model, name);
    if rel.Some? && rel.value.kind.HasOne? && data.Obj? {
      HasOneLinked(db, sc, root, s, name, data, bound);
    } else if rel.Some? && rel.value.kind.HasMany? {
      HasManyLinked(db, sc, root, s, name, data, bound);
    } else if rel.Some? && rel.value.kind.BelongsToMany? {
      ManyManyLinked(db, sc, root, s, name, data, bound);
    }
  }

  lemma HasOneLinked(db: Db, sc: Schema, root: Entity, s: Strategy, name: string, data: Value, bound: nat)
    requires ValueSize(data) < bound
    requires name in Names(root.relations)
    requires var rel := RelationOf(sc, root.model, name); rel.Some? && rel.value.kind.HasOne? && data.Obj?
    ensures var o := AfterStep(db, sc, root, s, name, data, bound);
      o.res.Success? ==>
        && ChildLinked(sc, s, db, o.db, root, o.res.value, name, data)
        && (forall n :: n != name ==> GetRelation(o.res.value.relations, n) == GetRelation(root.relations, n))
  {
    var kind := RelationOf(sc, root.model, name).value.kind;
    assert ValueSize(data) == Size(data.entity);
    assert AfterStep(db, sc, root, s, name, data, bound)
           == SaveHasOne(db, sc, root, name, data.entity, kind.foreignKey, kind.localKey, Nested(s, name), bound);
    HasOneManySaved(db, sc, root, data.entity, kind.foreignKey, kind.localKey, Nested(s, name), bound);
  }

  lemma HasManyLinked(db: Db, sc: Schema, root: Entity, s: Strategy, name: string, data: Value, bound: nat)
    requires ValueSize(data) < bound
    requires name in Names(root.relations)
    requires var rel := RelationOf(sc, root.model, name); rel.Some? && rel.value.kind.HasMany?
    ensures var o := AfterStep(db, sc, root, s, name, data, bound);
      o.res.Success? ==>
        && ChildLinked(sc, s, db, o.db, root, o.res.value, name, data)
        && (forall n :: n != name ==> GetRelation(o.res.value.relations, n) == GetRelation(root.relations, n))
  {
    var kind := RelationOf(sc, root.model, name).value.kind;
    assert AfterStep(db, sc, root, s, name, data, bound)
           == SaveHasMany(db, sc, root, name, data, kind.foreignKey, kind.localKey, Nested(s, name), bound);
    HasManyReplaced(db, sc, root, name, data, kind.foreignKey, kind.localKey, Nested(s, name), bound);
  }

  lemma ManyManyLinked(db: Db, sc: Schema, root: Entity, s: Strategy, name: string, data: Value, bound: nat)
    requires ValueSize(data) < bound
    requires name in Names(root.relations)
    requires var rel := RelationOf(sc, root.model, name); rel.Some? && rel.value.kind.BelongsToMany?
    ensures var o := AfterStep(db, sc, root, s, name, data, bound);
      o.res.Success? ==>
        && ChildLinked(sc, s, db, o.db, root, o.res.value, name, data)
        && (forall n :: n != name ==> GetRelation(o.res.value.relations, n) == GetRelation(root.relations, n))
  {
    var kind := RelationOf(sc, root.model, name).value.kind;
    assert AfterStep(db, sc, root, s, name, data, bound)
           == SaveManyMany(db, sc, root, name, data, kind.table, kind.qualifiedForeignPivotKey, kind.qualifiedRelatedPivotKey,
                           Nested(s, name), bound);
    ManyManyLoaded(db, sc, root, name, data, kind.table, kind.qualifiedForeignPivotKey, kind.qualifiedRelatedPivotKey,
                   Nested(s, name), bound);
  }

  /** The link survives later writes and later passes that leave the relation,
      the model and the attributes alone. */
  lemma ChildLater(sc: Schema, s: Strategy, db: Db, db1: Db, db2: Db, root: Entity, r: Entity, r': Entity,
                   name: string, data: Value)
    requires ChildLinked(sc, s, db, db1, root, r, name, data) && db1.log <= db2.log
    requires r'.model == r.model && r'.attrs == r.attrs
    requires GetRelation(r'.relations, name) == GetRelation(r.relations, name)
    ensures ChildLinked(sc, s, db, db2, root, r', name, data)
  {
    var rel := RelationOf(sc, r.model, name);
    var v := GetRelation(r.relations, name);
    if rel.Some? && rel.value.kind.HasOne? && data.Obj? {
      var fk := rel.value.kind.foreignKey;
      SavedLater(sc, Nested(s, name), db, db1, db2, SetAttr(data.entity, fk, Attr(r, rel.value.kind.localKey)),
                 v.value.entity);
    } else if rel.Some? && rel.value.kind.HasMany? {
      LinkedEntriesWiden(sc, Nested(s, name), db, db, db1, db2, Elements(data), v.value.entries,
                         rel.value.kind.foreignKey, Attr(r, rel.value.kind.localKey));
    } else if rel.Some? && rel.value.kind.BelongsToMany? {
      SavedElemsWiden(sc, Nested(s, name), db, db, db1, db2, FilterTruthy(Elements(data)), ValuesOf(v.value.entries));
    }
  }

  /** The link read from an earlier state, when the pass before left the
      relation untouched. */
  lemma ChildEarlier(sc: Schema, s: Strategy, db0: Db, db: Db, db': Db, root0: Entity, root: Entity, r: Entity,
                     name: string, data: Value)
    requires ChildLinked(sc, s, db, db', root, r, name, data) && db0.log <= db.log
    requires GetRelation(root.relations, name) == GetRelation(root0.relations, name)
    ensures ChildLinked(sc, s, db0, db', root0, r, name, data)
  {
    var rel := RelationOf(sc, r.model, name);
    var v := GetRelation(r.relations, name);
    if rel.Some? && rel.value.kind.HasOne? && data.Obj? {
      var fk := rel.value.kind.foreignKey;
      SavedEarlier(sc, Nested(s, name), db0, db, db', SetAttr(data.entity, fk, Attr(r, rel.value.kind.localKey)),
                   v.value.entity);
    } else if rel.Some? && rel.value.kind.HasMany? {
      LinkedEntriesWiden(sc, Nested(s, name), db0, db, db', db', Elements(data), v.value.entries,
                         rel.value.kind.foreignKey, Attr(r, rel.value.kind.localKey));
    } else if rel.Some? && rel.value.kind.BelongsToMany? {
      SavedElemsWiden(sc, Nested(s, name), db0, db, db', db', FilterTruthy(Elements(data)), ValuesOf(v.value.entries));
    }
  }

  /** The post-save leaves every relation it does not visit, and every
      belongs-to relation, as it was. */
  lemma {:induction false} AfterFrame(db: Db, sc: Schema, root: Entity, s: Strategy,
                                      items: seq<(string, Value)>, bound: nat)
    requires forall x :: x in items ==> ValueSize(x.1) < bound || IsBelongsTo(sc, root.model, x.0)
    requires forall x :: x in items ==> x.0 in Names(root.relations)
    decreases |items|
    ensures var o := AfterSteps(db, sc, root, s, items, bound);
      o.res.Success? ==>
        forall n :: n !in ItemNames(items) || IsBelongsTo(sc, root.model, n) ==>
          GetRelation(o.res.value.relations, n) == GetRelation(root.relations, n)
  {
    if items != [] {
      var (name, data) := items[0];
      assert items[0] in items;
      var o1 := AfterStep(db, sc, root, s, name, data, bound);
      AfterStepLinked(db, sc, root, s, name, data, bound);
      if o1.res.Success? {
        var root1 := o1.res.value;
        assert forall x :: x in items[1..] ==> x in items;
        AfterFrame(o1.db, sc, root1, s, items[1..], bound);
        var o := AfterSteps(db, sc, root, s, items, bound);
        assert o == AfterSteps(o1.db, sc, root1, s, items[1..], bound);
        assert forall n :: n !in ItemNames(items) ==> n !in ItemNames(items[1..]) && n != name;
        assert root1.model == root.model;
      }
    }
  }

  /** `deepAfterSave` over loaded relations with distinct names: on success,
      every relation it visits is linked to the saved root. */
  lemma {:induction false} ChildrenLinked(db: Db, sc: Schema, root: Entity, s: Strategy,
                                          items: seq<(string, Value)>, bound: nat)
    requires forall x :: x in items ==> ValueSize(x.1) < bound || IsBelongsTo(sc, root.model, x.0)
    requires forall x :: x in items ==> x.0 in Names(root.relations)
    requires UniqueNames(items)
    decreases |items|
    ensures var o := AfterSteps(db, sc, root, s, items, bound);
      o.res.Success? ==>
        forall x :: x in items ==> ChildLinked(sc, s, db, o.db, root, o.res.value, x.0, x.1)
  {
    if items != [] {
      var (name, data) := items[0];
      assert items[0] in items;
      var o1 := AfterStep(db, sc, root, s, name, data, bound);
      AfterStepLinked(db, sc, root, s, name, data, bound);
      if o1.res.Success? {
        var root1 := o1.res.value;
        var rest := items[1..];
        UniqueTail(items);
        ChildrenLinked(o1.db, sc, root1, s, rest, bound);
        AfterFrame(o1.db, sc, root1, s, rest, bound);
        var o := AfterSteps(db, sc, root, s, items, bound);
        assert o == AfterSteps(o1.db, sc, root1, s, rest, bound);
        if o.res.Success? {
          var r := o.res.value;
          ChildLater(sc, s, db, o1.db, o.db, root, root1, r, name, data);
          forall x | x in items
            ensures ChildLinked(sc, s, db, o.db, root, r, x.0, x.1)
          {
            if x != items[0] {
              assert x in rest;
              ChildEarlier(sc, s, db, o1.db, o.db, root, root1, r, x.0, x.1);
            }
          }
        }
      }
    }
  }

  // ---------------------------------------------------------------------------
  // The whole save

  /** In the writes after `db`, `a` is saved before `b`. */
  ghost predicate SavedBefore(sc: Schema, db: Db, db': Db, a: Entity, b: Entity) {
    && KeyOf(sc, a).Int? && KeyOf(sc, b).Int?
    && exists i, j :: |db.log| <= i < j < |db'.log|
         && db'.log[i] == Saved(a.model, KeyOf(sc, a).i) && db'.log[j] == Saved(b.model, KeyOf(sc, b).i)
  }

  /** A parent linked on the saved root and saved before it. */
  ghost predicate ParentFirst(sc: Schema, s: Strategy, db: Db, db': Db, r: Entity, name: string, parent: Entity) {
    && ParentLinked(sc, s, db, db', r, name, parent)
    && SavedBefore(sc, db, db', GetRelation(r.relations, name).value.entity, r)
  }

  /** A has-one child, each has-many child and each many-to-many element
      saved after the root. */
  ghost predicate ChildAfter(sc: Schema, db: Db, db': Db, r: Entity, name: string, data: Value) {
    var rel := RelationOf(sc, r.model, name);
    var v := GetRelation(r.relations, name);
    if rel.Some? && rel.value.kind.HasOne? && data.Obj? then
      v.Some? && v.value.Obj? && SavedBefore(sc, db, db', r, v.value.entity)
    else if rel.Some? && (rel.value.kind.HasMany? || rel.value.kind.BelongsToMany?) then
      && v.Some? && v.value.Arr?
      && forall j :: 0 <= j < |v.value.entries| ==>
           v.value.entries[j].1.Obj? && SavedBefore(sc, db, db', r, v.value.entries[j].1.entity)
    else
      true
  }

  /** The hypotheses of the whole-save lemmas: a cascading strategy, loaded
      relations of distinct names, belongs-to relations with distinct foreign
      keys, none of them the primary key. */
  ghost predicate WellFormedSave(sc: Schema, e: Entity, s: Strategy) {
    var cls := ClassOf(sc, e.model);
    s.Map? && UniqueNames(e.relations) && DistinctParentKeys(cls) && cls.keyName !in BelongsToKeys(cls)
  }

  /** `deepSave`: every belongs-to parent it cascades into is saved before the
      root, stays loaded on it, and its owner key sits in the root's foreign key. */
  lemma DeepSaveParents(db: Db, sc: Schema, e: Entity, s: Strategy)
    requires WellFormedSave(sc, e, s)
    ensures var o := DeepSave(db, sc, e, s);
      o.res.Success? ==>
        forall x :: x in StrategyRelations(e.relations, s) && IsBelongsTo(sc, e.model, x.0) && x.1.Obj? ==>
          ParentFirst(sc, s, db, o.db, o.res.value, x.0, x.1.entity)
  {
    var cls := ClassOf(sc, e.model);
    var items := StrategyRelations(e.relations, s);
    BeforeReady(e, s);
    SubsequenceUnique(items, e.relations);
    var b := BeforeSteps(db, sc, e, s, items, Size(e));
    if b.res.Success? {
      var e1 := b.res.value;
      ParentsLinked(db, sc, e, s, items, Size(e));
      var p := Persist(b.db, sc, e1);
      var e2 := p.1;
      AfterReady(sc, e, e1, e2, s);
      var items2 := StrategyRelations(e2.relations, s);
      var a := AfterSteps(p.0, sc, e2, s, items2, Size(e));
      if a.res.Success? {
        var r := a.res.value;
        AfterFrame(p.0, sc, e2, s, items2, Size(e));
        assert DeepSave(db, sc, e, s) == SaveAndAfter(b.db, sc, e, e1, s) == a;
        assert e1.model == e.model;
        ParentsKept(sc, s, db, b.db, p.0, a.db, e1, e2, r, items);
      }
    }
  }

  /** `ParentKept` for every parent the pre-save visited. */
  lemma ParentsKept(sc: Schema, s: Strategy, db: Db, db1: Db, db2: Db, db3: Db, e1: Entity, e2: Entity, r: Entity,
                    items: seq<(string, Value)>)
    requires forall x :: x in items && IsBelongsTo(sc, e1.model, x.0) && x.1.Obj? ==>
               ParentLinked(sc, s, db, db1, e1, x.0, x.1.entity)
    requires (db2, e2) == Persist(db1, sc, e1)
    requires AfterSaved(e2, r) && db2.log <= db3.log
    requires forall n :: IsBelongsTo(sc, e2.model, n) ==> GetRelation(r.relations, n) == GetRelation(e2.relations, n)
    requires ClassOf(sc, e1.model).keyName !in BelongsToKeys(ClassOf(sc, e1.model))
    ensures forall x :: x in items && IsBelongsTo(sc, e1.model, x.0) && x.1.Obj? ==>
              ParentFirst(sc, s, db, db3, r, x.0, x.1.entity)
  {
    forall x | x in items && IsBelongsTo(sc, e1.model, x.0) && x.1.Obj?
      ensures ParentFirst(sc, s, db, db3, r, x.0, x.1.entity)
    {
      assert RelationOf(sc, e1.model, x.0).value.kind.foreignKey in BelongsToKeys(ClassOf(sc, e1.model));
      ParentKept(sc, s, db, db1, db2, db3, e1, e2, r, x.0, x.1.entity);
    }
  }

  /** A parent linked by the pre-save stays linked through the save of the
      root and the post-save, and was saved before the root. */
  lemma ParentKept(sc: Schema, s: Strategy, db: Db, db1: Db, db2: Db, db3: Db, e1: Entity, e2: Entity, r: Entity,
                   name: string, parent: Entity)
    requires ParentLinked(sc, s, db, db1, e1, name, parent)
    requires (db2, e2) == Persist(db1, sc, e1)
    requires AfterSaved(e2, r) && db2.log <= db3.log
    requires GetRelation(r.relations, name) == GetRelation(e2.relations, name)
    requires RelationOf(sc, e1.model, name).value.kind.foreignKey != ClassOf(sc, e1.model).keyName
    ensures ParentFirst(sc, s, db, db3, r, name, parent)
  {
    LinkedKept(sc, s, db, db1, db3, e1, r, name, parent);
    var c := GetRelation(r.relations, name).value.entity;
    var i0 :| 0 <= i0 < |db1.log| - |db.log| && db1.log[|db.log|..][i0] == Saved(c.model, KeyOf(sc, c).i);
    assert db3.log[|db.log| + i0] == Saved(c.model, KeyOf(sc, c).i);
    assert KeyOf(sc, r) == KeyOf(sc, e2);
    assert db3.log[|db1.log|] == Saved(r.model, KeyOf(sc, r).i);
  }

  /** `deepSave`: every other relation it cascades into is linked to the saved
      root (`ChildLinked`), and every child it saves is saved after the root. */
  lemma DeepSaveChildren(db: Db, sc: Schema, e: Entity, s: Strategy)
    requires s.Map? && UniqueNames(e.relations)
    ensures var o := DeepSave(db, sc, e, s);
      o.res.Success? ==>
        forall x :: x in StrategyRelations(e.relations, s) && !IsBelongsTo(sc, e.model, x.0) ==>
          && ChildLinked(sc, s, db, o.db, e, o.res.value, x.0, x.1)
          && ChildAfter(sc, db, o.db, o.res.value, x.0, x.1)
  {
    var items := StrategyRelations(e.relations, s);
    BeforeReady(e, s);
    var b := BeforeSteps(db, sc, e, s, items, Size(e));
    if b.res.Success? {
      BeforeRelationsFrame(db, sc, e, s, items, Size(e));
      SaveAndAfterChildren(db, b.db, sc, e, b.res.value, s);
      assert DeepSave(db, sc, e, s) == SaveAndAfter(b.db, sc, e, b.res.value, s);
    }
  }

  /** The save and the post-save of `DeepSaveChildren`, once the pre-save has
      left every relation that is not belongs-to as it was. */
  lemma SaveAndAfterChildren(db: Db, db1: Db, sc: Schema, e: Entity, e1: Entity, s: Strategy)
    requires BeforeSaved(sc, e, e1) && UniqueNames(e.relations) && db.log <= db1.log
    requires forall n :: !IsBelongsTo(sc, e.model, n) ==> GetRelation(e1.relations, n) == GetRelation(e.relations, n)
    ensures var o := SaveAndAfter(db1, sc, e, e1, s);
      o.res.Success? ==>
        forall x :: x in StrategyRelations(e.relations, s) && !IsBelongsTo(sc, e.model, x.0) ==>
          && ChildLinked(sc, s, db, o.db, e, o.res.value, x.0, x.1)
          && ChildAfter(sc, db, o.db, o.res.value, x.0, x.1)
  {
    var p := Persist(db1, sc, e1);
    var e2 := p.1;
    AfterReady(sc, e, e1, e2, s);
    var a := AfterSteps(p.0, sc, e2, s, StrategyRelations(e2.relations, s), Size(e));
    if a.res.Success? {
      assert SaveAndAfter(db1, sc, e, e1, s) == a;
      AfterLinks(p.0, sc, e, e2, s);
      assert p.0.log[|db1.log|] == Saved(a.res.value.model, KeyOf(sc, a.res.value).i);
      ChildrenKept(sc, db, p.0, a.db, e, e2, a.res.value, s);
    }
  }

  /** `ChildrenLinked` for the post-save of a saved root whose relation names
      are those of `e`. */
  lemma AfterLinks(db: Db, sc: Schema, e: Entity, e2: Entity, s: Strategy)
    requires UniqueNames(e.relations) && Names(e2.relations) == Names(e.relations)
    requires var items := StrategyRelations(e2.relations, s);
      && (forall x :: x in items ==> ValueSize(x.1) < Size(e) || IsBelongsTo(sc, e2.model, x.0))
      && (forall x :: x in items ==> x.0 in Names(e2.relations))
    ensures var a := AfterSteps(db, sc, e2, s, StrategyRelations(e2.relations, s), Size(e));
      a.res.Success? ==>
        forall x :: x in StrategyRelations(e2.relations, s) ==> ChildLinked(sc, s, db, a.db, e2, a.res.value, x.0, x.1)
  {
    var items2 := StrategyRelations(e2.relations, s);
    NamesUnique(e.relations, e2.relations);
    SubsequenceUnique(items2, e2.relations);
    ChildrenLinked(db, sc, e2, s, items2, Size(e));
  }

  /** The links of the post-save, read against the entity before the pre-save:
      the pre-save changed no relation that is not belongs-to. */
  lemma ChildrenKept(sc: Schema, db: Db, db1: Db, db2: Db, e: Entity, e2: Entity, r: Entity, s: Strategy)
    requires UniqueNames(e.relations) && e2.model == e.model
    requires forall n :: !IsBelongsTo(sc, e.model, n) ==> GetRelation(e2.relations, n) == GetRelation(e.relations, n)
    requires forall x :: x in StrategyRelations(e2.relations, s) ==> ChildLinked(sc, s, db1, db2, e2, r, x.0, x.1)
    requires db.log < db1.log && KeyOf(sc, r).Int? && db1.log[|db1.log| - 1] == Saved(r.model, KeyOf(sc, r).i)
    ensures forall x :: x in StrategyRelations(e.relations, s) && !IsBelongsTo(sc, e.model, x.0) ==>
              ChildLinked(sc, s, db, db2, e, r, x.0, x.1) && ChildAfter(sc, db, db2, r, x.0, x.1)
  {
    forall x | x in StrategyRelations(e.relations, s) && !IsBelongsTo(sc, e.model, x.0)
      ensures ChildLinked(sc, s, db, db2, e, r, x.0, x.1) && ChildAfter(sc, db, db2, r, x.0, x.1)
    {
      UniqueGet(e.relations, x);
      assert x in e2.relations;
      assert x in StrategyRelations(e2.relations, s);
      ChildEarlier(sc, s, db, db1, db2, e, e2, r, x.0, x.1);
      ChildFollows(sc, s, db, db1, db2, e2, r, x.0, x.1);
    }
  }

  /** A save logged after the root's own save comes after it. */
  lemma AfterRoot(sc: Schema, db: Db, db1: Db, db2: Db, r: Entity, c: Entity)
    requires LoggedAfter(sc, db1, db2, c)
    requires db.log < db1.log && KeyOf(sc, r).Int?
    requires db1.log[|db1.log| - 1] == Saved(r.model, KeyOf(sc, r).i)
    ensures SavedBefore(sc, db, db2, r, c)
  {
    var k :| 0 <= k < |db2.log| - |db1.log| && db2.log[|db1.log|..][k] == Saved(c.model, KeyOf(sc, c).i);
    assert db2.log[|db1.log| + k] == Saved(c.model, KeyOf(sc, c).i);
    assert db2.log[|db1.log| - 1] == Saved(r.model, KeyOf(sc, r).i);
  }

  /** The children linked after the root's save are saved after the root. */
  lemma ChildFollows(sc: Schema, s: Strategy, db: Db, db1: Db, db2: Db, root: Entity, r: Entity, name: string,
                     data: Value)
    requires ChildLinked(sc, s, db1, db2, root, r, name, data)
    requires db.log < db1.log && KeyOf(sc, r).Int?
    requires db1.log[|db1.log| - 1] == Saved(r.model, KeyOf(sc, r).i)
    ensures ChildAfter(sc, db, db2, r, name, data)
  {
    var rel := RelationOf(sc, r.model, name);
    var v := GetRelation(r.relations, name);
    if rel.Some? && rel.value.kind.HasOne? && data.Obj? {
      AfterRoot(sc, db, db1, db2, r, v.value.entity);
    } else if rel.Some? && rel.value.kind.HasMany? {
      var es := v.value.entries;
      forall j | 0 <= j < |es| ensures es[j].1.Obj? && SavedBefore(sc, db, db2, r, es[j].1.entity) {
        LinkedEntriesAt(sc, Nested(s, name), db1, db2, Elements(data), es, rel.value.kind.foreignKey,
                        Attr(r, rel.value.kind.localKey), j);
        AfterRoot(sc, db, db1, db2, r, es[j].1.entity);
      }
    } else if rel.Some? && rel.value.kind.BelongsToMany? {
      var es := v.value.entries;
      forall j | 0 <= j < |es| ensures es[j].1.Obj? && SavedBefore(sc, db, db2, r, es[j].1.entity) {
        SavedElemsAt(sc, Nested(s, name), db1, db2, FilterTruthy(Elements(data)), ValuesOf(es), j);
        AfterRoot(sc, db, db1, db2, r, es[j].1.entity);
      }
    }
  }

  // ---------------------------------------------------------------------------
  // Relations the strategy maps to `false`

  /** `r` is `e` after one plain `save()`: keyed, with the same relations. */
  ghost predicate PlainSaved(sc: Schema, e: Entity, r: Entity) {
    r.relations == e.relations && exists d: Db :: Persist(d, sc, e).1 == r
  }

  /** The relation `name` of the saved root `r`, loaded with `data` before the
      save, holds models saved with a plain `save()`: the parent, the has-one
      child with the root's key stamped in, each has-many child likewise, and
      each truthy many-to-many element. */
  ghost predicate SavedPlainly(sc: Schema, r: Entity, name: string, data: Value) {
    var rel := RelationOf(sc, r.model, name);
    var v := GetRelation(r.relations, name);
    if rel.Some? && rel.value.kind.BelongsTo? && data.Obj? then
      v.Some? && v.value.Obj? && PlainSaved(sc, data.entity, v.value.entity)
    else if rel.Some? && rel.value.kind.HasOne? && data.Obj? then
      var key := Attr(r, rel.value.kind.localKey);
      v.Some? && v.value.Obj? && PlainSaved(sc, SetAttr(data.entity, rel.value.kind.foreignKey, key), v.value.entity)
    else if rel.Some? && rel.value.kind.HasMany? then
      var key := Attr(r, rel.value.kind.localKey);
      var items := Elements(data);
      && v.Some? && v.value.Arr? && |v.value.entries| == |items|
      && forall j :: 0 <= j < |items| ==>
           && items[j].1.Obj? && v.value.entries[j].1.Obj?
           && PlainSaved(sc, SetAttr(items[j].1.entity, rel.value.kind.foreignKey, key), v.value.entries[j].1.entity)
    else if rel.Some? && rel.value.kind.BelongsToMany? then
      var items := FilterTruthy(Elements(data));
      && v.Some? && v.value.Arr? && |v.value.entries| == |items|
      && forall j :: 0 <= j < |items| ==>
           && items[j].1.Obj? && v.value.entries[j].1.Obj?
           && PlainSaved(sc, items[j].1.entity, v.value.entries[j].1.entity)
    else
      true
  }

  lemma PlainFromNested(sc: Schema, s: Strategy, db: Db, db': Db, name: string, e: Entity, r: Entity)
    requires s.Map? && name in s.m && s.m[name] == False
    requires SavedBetween(sc, Nested(s, name), db, db', e, r)
    ensures PlainSaved(sc, e, r)
  {
    NestedFalseIsPlainSave(sc, s, name, e, r);
  }

  /** A relation linked after the post-save, under a strategy mapping it to
      `false`, holds models saved plainly. */
  lemma ChildPlain(sc: Schema, s: Strategy, db: Db, db': Db, root: Entity, r: Entity, name: string, data: Value)
    requires ChildLinked(sc, s, db, db', root, r, name, data)
    requires s.Map? && name in s.m && s.m[name] == False && !IsBelongsTo(sc, r.model, name)
    ensures SavedPlainly(sc, r, name, data)
  {
    var rel := RelationOf(sc, r.model, name);
    var v := GetRelation(r.relations, name);
    if rel.Some? && rel.value.kind.HasOne? && data.Obj? {
      var key := Attr(r, rel.value.kind.localKey);
      PlainFromNested(sc, s, db, db', name, SetAttr(data.entity, rel.value.kind.foreignKey, key), v.value.entity);
    } else if rel.Some? && rel.value.kind.HasMany? {
      var key := Attr(r, rel.value.kind.localKey);
      var items := Elements(data);
      var es := v.value.entries;
      forall j | 0 <= j < |items|
        ensures items[j].1.Obj? && es[j].1.Obj?
        ensures PlainSaved(sc, SetAttr(items[j].1.entity, rel.value.kind.foreignKey, key), es[j].1.entity)
      {
        LinkedEntriesAt(sc, Nested(s, name), db, db', items, es, rel.value.kind.foreignKey, key, j);
        PlainFromNested(sc, s, db, db', name, SetAttr(items[j].1.entity, rel.value.kind.foreignKey, key),
                        es[j].1.entity);
      }
    } else if rel.Some? && rel.value.kind.BelongsToMany? {
      var items := FilterTruthy(Elements(data));
      var es := v.value.entries;
      forall j | 0 <= j < |items|
        ensures items[j].1.Obj? && es[j].1.Obj? && PlainSaved(sc, items[j].1.entity, es[j].1.entity)
      {
        SavedElemsAt(sc, Nested(s, name), db, db', items, ValuesOf(es), j);
        PlainFromNested(sc, s, db, db', name, items[j].1.entity, es[j].1.entity);
      }
    }
  }

  /** `deepSave`: a relation whose nested strategy is `false` is saved, in
      every branch, by a plain `save()` and not cascaded into. */
  lemma DeepSaveNestedFalse(db: Db, sc: Schema, e: Entity, s: Strategy)
    requires WellFormedSave(sc, e, s)
    ensures var o := DeepSave(db, sc, e, s);
      o.res.Success? ==>
        forall x :: x in StrategyRelations(e.relations, s) && x.0 in s.m && s.m[x.0] == False ==>
          SavedPlainly(sc, o.res.value, x.0, x.1)
  {
    var o := DeepSave(db, sc, e, s);
    if o.res.Success? {
      DeepSaveParents(db, sc, e, s);
      DeepSaveChildren(db, sc, e, s);
      var r := o.res.value;
      forall x | x in StrategyRelations(e.relations, s) && x.0 in s.m && s.m[x.0] == False
        ensures SavedPlainly(sc, r, x.0, x.1)
      {
        if IsBelongsTo(sc, e.model, x.0) {
          if x.1.Obj? {
            PlainFromNested(sc, s, db, o.db, x.0, x.1.entity, GetRelation(r.relations, x.0).value.entity);
          }
        } else {
          ChildPlain(sc, s, db, o.db, e, r, x.0, x.1);
        }
      }
    }
  }
}
