/** What the save cascade guarantees beyond a single call: the strategy that
    switches the cascade off, the keys the pre-save copies into the root, the
    keys the post-save stamps into the children, and the pivot rows that the
    many-to-many save leaves behind. */
module CascadeFacts {
  import opened Values
  import opened Schema
  import opened Strategy
  import opened Persistence
  import opened Cascade

  // ---------------------------------------------------------------------------
  // Strategies

  /** `r` is what `SaveModel` makes of `e` with the strategy `s`, from some
      state of the database. */
  ghost predicate SavedBy(sc: Schema, s: Strategy, e: Entity, r: Entity) {
    exists d: Db :: SaveModel(d, sc, e, s).res == Success(r)
  }

  /** `r` is what `SaveModel` makes of `e` with the strategy `s`, and its save
      is logged after the writes of `db`. */
  ghost predicate SavedBetween(sc: Schema, s: Strategy, db: Db, db': Db, e: Entity, r: Entity) {
    SavedBy(sc, s, e, r) && LoggedAfter(sc, db, db', r)
  }

  lemma SavedHere(db: Db, sc: Schema, e: Entity, s: Strategy)
    ensures var o := SaveModel(db, sc, e, s);
      o.res.Success? ==> SavedBetween(sc, s, db, o.db, e, o.res.value)
  {
  }

  lemma SavedLater(sc: Schema, s: Strategy, db: Db, db1: Db, db2: Db, e: Entity, r: Entity)
    requires SavedBetween(sc, s, db, db1, e, r) && db1.log <= db2.log
    ensures SavedBetween(sc, s, db, db2, e, r)
  {
    LoggedLater(sc, db, db1, db2, r);
  }

  lemma SavedEarlier(sc: Schema, s: Strategy, db: Db, db1: Db, db2: Db, e: Entity, r: Entity)
    requires db.log <= db1.log && SavedBetween(sc, s, db1, db2, e, r)
    ensures SavedBetween(sc, s, db, db2, e, r)
  {
    LoggedEarlier(sc, db, db1, db2, r);
  }

  /** With the strategy `false`, or for a class without the trait, the save
      is a plain `save()`. */
  lemma PlainSave(db: Db, sc: Schema, e: Entity, s: Strategy)
    requires s.False? || !ClassOf(sc, e.model).deep
    ensures var p := Persist(db, sc, e);
      SaveModel(db, sc, e, s) == Step(p.0, Success(p.1))
  {
  }

  /** A relation saved with a nested `false` is saved by one plain `save()`:
      it gets a key and no relation of it is visited. */
  lemma NestedFalseIsPlainSave(sc: Schema, s: Strategy, name: string, e: Entity, r: Entity)
    requires s.Map? && name in s.m && s.m[name] == False
    requires SavedBy(sc, Nested(s, name), e, r)
    ensures exists d: Db :: Persist(d, sc, e).1 == r
    ensures r.relations == e.relations
  {
    var d: Db :| SaveModel(d, sc, e, Nested(s, name)).res == Success(r);
    PlainSave(d, sc, e, Nested(s, name));
  }

  /** A relation the strategy does not name is not cascaded into at all. */
  lemma UnnamedNotCascaded(rels: seq<(string, Value)>, s: Strategy, name: string)
    requires s.Map? && s.m != map[] && name !in s.m
    ensures forall x :: x in StrategyRelations(rels, s) ==> x.0 != name
  {
  }

  // ---------------------------------------------------------------------------
  // Has-many

  /** The elements after the first of a bounded collection are bounded. */
  lemma TailBounded(items: seq<(Key, Value)>, bound: nat)
    requires items != [] && forall x :: x in items ==> ValueSize(x.1) < bound
    ensures forall x :: x in items[1..] ==> ValueSize(x.1) < bound
  {
    assert forall x :: x in items[1..] ==> x in items;
  }


  /** `out` holds, key for key, the saved and linked forms of the children in
      `items`: each saved with the strategy `s` after the writes of `db`. */
  ghost predicate LinkedEntries(sc: Schema, s: Strategy, db: Db, db': Db, items: seq<(Key, Value)>,
                                out: seq<(Key, Value)>, fk: string, key: Value)
    decreases |items|
  {
    && |out| == |items|
    && (items != [] ==>
         && out[0].0 == items[0].0
         && items[0].1.Obj? && out[0].1.Obj?
         && Linked(sc, items[0].1.entity, out[0].1.entity, fk, key)
         && SavedBetween(sc, s, db, db', SetAttr(items[0].1.entity, fk, key), out[0].1.entity)
         && LinkedEntries(sc, s, db, db', items[1..], out[1..], fk, key))
  }

  /** Read `LinkedEntries` element by element. */
  lemma {:induction false} LinkedEntriesAt(sc: Schema, s: Strategy, db: Db, db': Db, items: seq<(Key, Value)>,
                                           out: seq<(Key, Value)>, fk: string, key: Value, i: nat)
    requires LinkedEntries(sc, s, db, db', items, out, fk, key) && i < |items|
    ensures out[i].0 == items[i].0 && items[i].1.Obj? && out[i].1.Obj?
    ensures Linked(sc, items[i].1.entity, out[i].1.entity, fk, key)
    ensures SavedBetween(sc, s, db, db', SetAttr(items[i].1.entity, fk, key), out[i].1.entity)
    decreases i
  {
    if i > 0 { LinkedEntriesAt(sc, s, db, db', items[1..], out[1..], fk, key, i - 1); }
  }

  /** The links hold against any earlier state and through later writes. */
  lemma {:induction false} LinkedEntriesWiden(sc: Schema, s: Strategy, db0: Db, db: Db, db': Db, db1: Db,
                                              items: seq<(Key, Value)>, out: seq<(Key, Value)>, fk: string, key: Value)
    requires LinkedEntries(sc, s, db, db', items, out, fk, key) && db0.log <= db.log && db'.log <= db1.log
    ensures LinkedEntries(sc, s, db0, db1, items, out, fk, key)
    decreases |items|
  {
    if items != [] {
      var c := out[0].1.entity;
      SavedLater(sc, s, db, db', db1, SetAttr(items[0].1.entity, fk, key), c);
      SavedEarlier(sc, s, db0, db, db1, SetAttr(items[0].1.entity, fk, key), c);
      LinkedEntriesWiden(sc, s, db0, db, db', db1, items[1..], out[1..], fk, key);
    }
  }

  /** The head child saved between `db` and `db1`, the rest between `db1`
      and `db2`: all of them saved between `db` and `db2`. */
  lemma LinkedEntriesStep(sc: Schema, s: Strategy, db: Db, db1: Db, db2: Db, items: seq<(Key, Value)>,
                          acc: seq<(Key, Value)>, h: (Key, Value), r: seq<(Key, Value)>, fk: string, key: Value)
    requires items != [] && h.0 == items[0].0 && items[0].1.Obj? && h.1.Obj?
    requires Linked(sc, items[0].1.entity, h.1.entity, fk, key)
    requires SavedBetween(sc, s, db, db1, SetAttr(items[0].1.entity, fk, key), h.1.entity) && db1.log <= db2.log
    requires |acc + [h]| <= |r| && r[..|acc + [h]|] == acc + [h]
    requires LinkedEntries(sc, s, db1, db2, items[1..], r[|acc + [h]|..], fk, key)
    ensures |acc| <= |r| && r[..|acc|] == acc && LinkedEntries(sc, s, db, db2, items, r[|acc|..], fk, key)
  {
    assert |acc + [h]| == |acc| + 1;
    SavedLater(sc, s, db, db1, db2, SetAttr(items[0].1.entity, fk, key), h.1.entity);
    LinkedEntriesWiden(sc, s, db, db1, db2, db2, items[1..], r[|acc| + 1..], fk, key);
    assert r[..|acc| + 1][..|acc|] == acc;
    var rest := r[|acc|..];
    assert rest[0] == r[..|acc| + 1][|acc|] == h;
    assert rest[1..] == r[|acc| + 1..];
  }

  /** `saveHasOneManyRelation` saves the child, with the parent's key stamped
      in, by `SaveModel` with the strategy it is given. */
  lemma HasOneManySaved(db: Db, sc: Schema, root: Entity, child: Entity, fk: string, lk: string,
                        nested: Strategy, bound: nat)
    requires Size(child) < bound
    ensures var o := SaveHasOneMany(db, sc, root, child, fk, lk, nested, bound);
      o.res.Success? ==> SavedBetween(sc, nested, db, o.db, SetAttr(child, fk, Attr(root, lk)), o.res.value)
  {
    var stamped := SetAttr(child, fk, Attr(root, lk));
    assert SaveHasOneMany(db, sc, root, child, fk, lk, nested, bound) == SaveModel(db, sc, stamped, nested);
    SavedHere(db, sc, stamped, nested);
  }

  /** The `foreach` of `saveHasMany` keeps every key and the order, and each
      element becomes the saved, linked form of the input element; it stops
      at the first element that is not a model. */
  lemma {:induction false} HasManySaved(db: Db, sc: Schema, root: Entity, items: seq<(Key, Value)>, fk: string,
                                        lk: string, nested: Strategy, acc: seq<(Key, Value)>, bound: nat)
    requires forall x :: x in items ==> ValueSize(x.1) < bound
    ensures var o := HasManySteps(db, sc, root, items, fk, lk, nested, acc, bound);
      o.res.Success? ==>
        && |acc| <= |o.res.value| && o.res.value[..|acc|] == acc
        && LinkedEntries(sc, nested, db, o.db, items, o.res.value[|acc|..], fk, Attr(root, lk))
    decreases |items|, 1
  {
    var o := HasManySteps(db, sc, root, items, fk, lk, nested, acc, bound);
    if items == [] {
      assert o.res.Success? ==> o.res.value[|acc|..] == [];
    } else if items[0].1.Obj? {
      HasManySavedHead(db, sc, root, items, fk, lk, nested, acc, bound);
    }
  }

  /** The step of `HasManySaved` that saves a child. */
  lemma {:induction false} HasManySavedHead(db: Db, sc: Schema, root: Entity, items: seq<(Key, Value)>, fk: string,
                                            lk: string, nested: Strategy, acc: seq<(Key, Value)>, bound: nat)
    requires forall x :: x in items ==> ValueSize(x.1) < bound
    requires items != [] && items[0].1.Obj?
    ensures var o := HasManySteps(db, sc, root, items, fk, lk, nested, acc, bound);
      o.res.Success? ==>
        && |acc| <= |o.res.value| && o.res.value[..|acc|] == acc
        && LinkedEntries(sc, nested, db, o.db, items, o.res.value[|acc|..], fk, Attr(root, lk))
    decreases |items|, 0
  {
    var d := items[0].1.entity;
    assert items[0] in items;
    var c := SaveHasOneMany(db, sc, root, d, fk, lk, nested, bound);
    if c.res.Success? {
      HasOneManySaved(db, sc, root, d, fk, lk, nested, bound);
      var h := (items[0].0, Obj(c.res.value));
      TailBounded(items, bound);
      HasManySaved(c.db, sc, root, items[1..], fk, lk, nested, acc + [h], bound);
      var o := HasManySteps(c.db, sc, root, items[1..], fk, lk, nested, acc + [h], bound);
      assert HasManySteps(db, sc, root, items, fk, lk, nested, acc, bound) == o;
      if o.res.Success? {
        LinkedEntriesStep(sc, nested, db, c.db, o.db, items, acc, h, o.res.value, fk, Attr(root, lk));
      }
    }
  }

  /** `saveHasMany` replaces the loaded relation by an array with the input's
      keys in the input's order, each value the saved child linked to the root. */
  lemma HasManyReplaced(db: Db, sc: Schema, root: Entity, name: string, data: Value, fk: string, lk: string,
                        nested: Strategy, bound: nat)
    requires ValueSize(data) < bound
    ensures var o := SaveHasMany(db, sc, root, name, data, fk, lk, nested, bound);
      o.res.Success? ==>
        var v := GetRelation(o.res.value.relations, name);
        && v.Some? && v.value.Arr?
        && KeysOf(v.value.entries) == KeysOf(Elements(data))
        && LinkedEntries(sc, nested, db, o.db, Elements(data), v.value.entries, fk, Attr(root, lk))
  {
    ElementsSmaller(data);
    var items := Elements(data);
    HasManySaved(db, sc, root, items, fk, lk, nested, [], bound);
    var c := HasManySteps(db, sc, root, items, fk, lk, nested, [], bound);
    if c.res.Success? {
      var out := c.res.value;
      assert out[0..] == out;
      var o := SaveHasMany(db, sc, root, name, data, fk, lk, nested, bound);
      assert o.res.value == Replace(root, name, Arr(out)) && o.db == c.db;
      assert GetRelation(o.res.value.relations, name) == Some(Arr(out));
      LinkedEntriesKeys(sc, nested, db, o.db, items, out, fk, Attr(root, lk));
    }
  }

  /** The saved children sit under the keys of the input, in order. */
  lemma LinkedEntriesKeys(sc: Schema, s: Strategy, db: Db, db': Db, items: seq<(Key, Value)>,
                          out: seq<(Key, Value)>, fk: string, key: Value)
    requires LinkedEntries(sc, s, db, db', items, out, fk, key)
    ensures KeysOf(out) == KeysOf(items)
  {
    forall i | 0 <= i < |out| ensures KeysOf(out)[i] == KeysOf(items)[i] {
      LinkedEntriesAt(sc, s, db, db', items, out, fk, key, i);
    }
  }

  // ---------------------------------------------------------------------------
  // Many-to-many

  /** `vs` holds, one for one, the saved forms of the elements in `items`:
      each saved with the strategy `s` after the writes of `db`. */
  ghost predicate SavedElems(sc: Schema, s: Strategy, db: Db, db': Db, items: seq<(Key, Value)>, vs: seq<Value>)
    decreases |items|
  {
    && |vs| == |items|
    && (items != [] ==>
         && items[0].1.Obj? && vs[0].Obj?
         && SavedAs(sc, items[0].1.entity, vs[0].entity)
         && SavedBetween(sc, s, db, db', items[0].1.entity, vs[0].entity)
         && SavedElems(sc, s, db, db', items[1..], vs[1..]))
  }

  /** Read `SavedElems` element by element. */
  lemma {:induction false} SavedElemsAt(sc: Schema, s: Strategy, db: Db, db': Db, items: seq<(Key, Value)>,
                                        vs: seq<Value>, i: nat)
    requires SavedElems(sc, s, db, db', items, vs) && i < |items|
    ensures items[i].1.Obj? && vs[i].Obj? && SavedAs(sc, items[i].1.entity, vs[i].entity)
    ensures SavedBetween(sc, s, db, db', items[i].1.entity, vs[i].entity)
    decreases i
  {
    if i > 0 { SavedElemsAt(sc, s, db, db', items[1..], vs[1..], i - 1); }
  }

  /** The saves hold against any earlier state and through later writes. */
  lemma {:induction false} SavedElemsWiden(sc: Schema, s: Strategy, db0: Db, db: Db, db': Db, db1: Db,
                                           items: seq<(Key, Value)>, vs: seq<Value>)
    requires SavedElems(sc, s, db, db', items, vs) && db0.log <= db.log && db'.log <= db1.log
    ensures SavedElems(sc, s, db0, db1, items, vs)
    decreases |items|
  {
    if items != [] {
      SavedLater(sc, s, db, db', db1, items[0].1.entity, vs[0].entity);
      SavedEarlier(sc, s, db0, db, db1, items[0].1.entity, vs[0].entity);
      SavedElemsWiden(sc, s, db0, db, db', db1, items[1..], vs[1..]);
    }
  }

  /** The head element saved between `db` and `db1`, the rest between `db1`
      and `db2`: all of them saved between `db` and `db2`. */
  lemma SavedElemsStep(sc: Schema, s: Strategy, db: Db, db1: Db, db2: Db, items: seq<(Key, Value)>,
                       saved: seq<Value>, x: Value, sv: seq<Value>)
    requires items != [] && items[0].1.Obj? && x.Obj? && SavedAs(sc, items[0].1.entity, x.entity)
    requires SavedBetween(sc, s, db, db1, items[0].1.entity, x.entity) && db1.log <= db2.log
    requires |saved| + 1 <= |sv| && sv[..|saved| + 1] == saved + [x]
    requires SavedElems(sc, s, db1, db2, items[1..], sv[|saved| + 1..])
    ensures sv[..|saved|] == saved && SavedElems(sc, s, db, db2, items, sv[|saved|..])
  {
    SavedLater(sc, s, db, db1, db2, items[0].1.entity, x.entity);
    SavedElemsWiden(sc, s, db, db1, db2, db2, items[1..], sv[|saved| + 1..]);
    assert sv[..|saved| + 1][..|saved|] == saved;
    var rest := sv[|saved|..];
    assert rest[0] == sv[..|saved| + 1][|saved|] == x;
    assert rest[1..] == sv[|saved| + 1..];
  }

  /** The rows `saveManyMany` inserts for the saved elements `vs`: the owner's
      key paired with each element's key. */
  function PivotRows(sc: Schema, table: string, ownerCol: string, ownerKey: Value, relatedCol: string,
                     vs: seq<Value>): (r: seq<PivotRow>)
    ensures |r| == |vs|
    ensures forall i :: 0 <= i < |vs| && vs[i].Obj? ==>
              r[i] == PivotOf(table, ownerCol, ownerKey, relatedCol, KeyOf(sc, vs[i].entity))
    decreases |vs|
  {
    if vs == [] then []
    else
      var last := vs[|vs| - 1];
      var prev := PivotRows(sc, table, ownerCol, ownerKey, relatedCol, vs[..|vs| - 1]);
      var r := prev + [PivotOf(table, ownerCol, ownerKey, relatedCol, if last.Obj? then KeyOf(sc, last.entity) else Null)];
      assert forall i :: 0 <= i < |vs| - 1 ==> vs[i] == vs[..|vs| - 1][i] && r[i] == prev[i];
      r
  }

  lemma PivotRowsSnoc(sc: Schema, table: string, ownerCol: string, ownerKey: Value, relatedCol: string,
                      vs: seq<Value>, x: Value)
    requires x.Obj?
    ensures PivotRows(sc, table, ownerCol, ownerKey, relatedCol, vs + [x])
            == PivotRows(sc, table, ownerCol, ownerKey, relatedCol, vs)
               + [PivotOf(table, ownerCol, ownerKey, relatedCol, KeyOf(sc, x.entity))]
  {
    assert (vs + [x])[..|vs|] == vs;
  }

  /** The `foreach` of `saveManyMany` saves each element in order and builds
      one pivot row per element, from the owner's key and the element's key. */
  lemma {:induction false} ManyManySaved(db: Db, sc: Schema, root: Entity, items: seq<(Key, Value)>, ownerCol: string,
                                         relatedCol: string, nested: Strategy, saved: seq<Value>,
                                         rows: seq<PivotRow>, table: string, bound: nat)
    requires forall x :: x in items ==> ValueSize(x.1) < bound
    requires rows == PivotRows(sc, table, ownerCol, KeyOf(sc, root), relatedCol, saved)
    ensures var o := ManyManySteps(db, sc, root, items, ownerCol, relatedCol, nested, saved, rows, table, bound);
      o.res.Success? ==>
        var (sv, rs) := o.res.value;
        && |saved| <= |sv| && sv[..|saved|] == saved
        && SavedElems(sc, nested, db, o.db, items, sv[|saved|..])
        && rs == PivotRows(sc, table, ownerCol, KeyOf(sc, root), relatedCol, sv)
    decreases |items|
  {
    var o := ManyManySteps(db, sc, root, items, ownerCol, relatedCol, nested, saved, rows, table, bound);
    if items == [] {
      assert o.res.Success? ==> o.res.value.0[|saved|..] == [];
    } else {
      var d := items[0].1;
      assert items[0] in items;
      if d.Obj? {
        var c := SaveModel(db, sc, d.entity, nested);
        SavedHere(db, sc, d.entity, nested);
        if c.res.Success? {
          var x := Obj(c.res.value);
          var row := PivotOf(table, ownerCol, KeyOf(sc, root), relatedCol, KeyOf(sc, c.res.value));
          var saved', rows' := saved + [x], rows + [row];
          PivotRowsSnoc(sc, table, ownerCol, KeyOf(sc, root), relatedCol, saved, x);
          TailBounded(items, bound);
          ManyManySaved(c.db, sc, root, items[1..], ownerCol, relatedCol, nested, saved', rows', table, bound);
          assert o == ManyManySteps(c.db, sc, root, items[1..], ownerCol, relatedCol, nested, saved', rows', table, bound);
          if o.res.Success? {
            SavedElemsStep(sc, nested, db, c.db, o.db, items, saved, x, o.res.value.0);
          }
        }
      }
    }
  }

  /** The element is saved without a cascade of its own, so the save writes
      no pivot rows. */
  predicate PlainElement(sc: Schema, nested: Strategy, v: Value) {
    v.Obj? && (nested.False? || !ClassOf(sc, v.entity.model).deep)
  }

  lemma PlainSavePivots(db: Db, sc: Schema, e: Entity, s: Strategy)
    requires s.False? || !ClassOf(sc, e.model).deep
    ensures SaveModel(db, sc, e, s).db.pivots == db.pivots
  {
    if ClassOf(sc, e.model).deep {
      assert SaveModel(db, sc, e, s) == DeepSave(db, sc, e, s);
    }
  }

  /** Plain saves of the elements leave the pivot table alone. */
  lemma {:induction false} ManyManyPlainPivots(db: Db, sc: Schema, root: Entity, items: seq<(Key, Value)>,
                                               ownerCol: string, relatedCol: string, nested: Strategy,
                                               saved: seq<Value>, rows: seq<PivotRow>, table: string, bound: nat)
    requires forall x :: x in items ==> ValueSize(x.1) < bound
    requires forall x :: x in items ==> PlainElement(sc, nested, x.1)
    ensures ManyManySteps(db, sc, root, items, ownerCol, relatedCol, nested, saved, rows, table, bound).db.pivots
            == db.pivots
    decreases |items|
  {
    if items != [] {
      assert items[0] in items;
      var c := SaveModel(db, sc, items[0].1.entity, nested);
      PlainSavePivots(db, sc, items[0].1.entity, nested);
      if c.res.Success? {
        var row := PivotOf(table, ownerCol, KeyOf(sc, root), relatedCol, KeyOf(sc, c.res.value));
        assert forall x :: x in items[1..] ==> x in items;
        ManyManyPlainPivots(c.db, sc, root, items[1..], ownerCol, relatedCol, nested,
                            saved + [Obj(c.res.value)], rows + [row], table, bound);
      }
    }
  }

  /** With nothing truthy in the input, `saveManyMany` only deletes the owner's
      rows: no insert, and the loaded relation becomes an empty list. */
  lemma ManyManyEmpty(db: Db, sc: Schema, root: Entity, name: string, data: Value, table: string,
                      qf: string, qr: string, nested: Strategy, bound: nat)
    requires ValueSize(data) < bound
    requires forall x :: x in Elements(data) ==> !Truthy(x.1)
    ensures var o := SaveManyMany(db, sc, root, name, data, table, qf, qr, nested, bound);
      && o.db == DeletePivots(db, table, ColumnSuffix(qf), KeyOf(sc, root))
      && o.res.Success? && GetRelation(o.res.value.relations, name) == Some(ListOf([]))
  {
    NoneTruthy(Elements(data));
  }

  lemma {:induction false} NoneTruthy(es: seq<(Key, Value)>)
    requires forall x :: x in es ==> !Truthy(x.1)
    ensures FilterTruthy(es) == []
  {
    if es != [] {
      assert es[0] in es;
      assert forall x :: x in es[1..] ==> x in es;
      NoneTruthy(es[1..]);
    }
  }

  /** `saveManyMany` loads the saved truthy elements, in order, as a list. */
  lemma ManyManyLoaded(db: Db, sc: Schema, root: Entity, name: string, data: Value, table: string,
                       qf: string, qr: string, nested: Strategy, bound: nat)
    requires ValueSize(data) < bound
    ensures var o := SaveManyMany(db, sc, root, name, data, table, qf, qr, nested, bound);
      o.res.Success? ==>
        var v := GetRelation(o.res.value.relations, name);
        && v.Some? && v.value.Arr? && IsList(v.value.entries)
        && SavedElems(sc, nested, db, o.db, FilterTruthy(Elements(data)), ValuesOf(v.value.entries))
  {
    var ownerCol, relatedCol := ColumnSuffix(qf), ColumnSuffix(qr);
    var wiped := DeletePivots(db, table, ownerCol, KeyOf(sc, root));
    var kept := FilterTruthy(Elements(data));
    KeptSmaller(data, bound);
    if kept == [] {
      assert ValuesOf(ListOf([]).entries) == [];
    } else {
      ManyManySaved(wiped, sc, root, kept, ownerCol, relatedCol, nested, [], [], table, bound);
      var c := ManyManySteps(wiped, sc, root, kept, ownerCol, relatedCol, nested, [], [], table, bound);
      if c.res.Success? {
        var (saved, rows) := c.res.value;
        assert saved[0..] == saved;
        var o := SaveManyMany(db, sc, root, name, data, table, qf, qr, nested, bound);
        assert o.res.value == Replace(root, name, ListOf(saved));
        assert ValuesOf(ListOf(saved).entries) == saved;
        assert o.db == InsertPivots(c.db, table, rows);
        SavedElemsWiden(sc, nested, db, wiped, c.db, o.db, kept, saved);
      }
    }
  }

  lemma EmptyRows(sc: Schema, pivots: seq<PivotRow>, table: string, ownerCol: string, ownerKey: Value, relatedCol: string)
    ensures var w := WithoutOwner(pivots, table, ownerCol, ownerKey);
      w + PivotRows(sc, table, ownerCol, ownerKey, relatedCol, ValuesOf(ListOf([]).entries)) == w
  {
    assert ValuesOf(ListOf([]).entries) == [];
  }

  /** After `saveManyMany` with plainly saved elements, the pivot rows are the
      rows of other owners, as they were, followed by one row per truthy
      element in order, pairing the owner's key with the saved element's key;
      the loaded relation is the list of the saved elements. */
  lemma ManyManyRebuilt(db: Db, sc: Schema, root: Entity, name: string, data: Value, table: string,
                        qf: string, qr: string, nested: Strategy, bound: nat)
    requires ValueSize(data) < bound
    requires forall x :: x in Elements(data) && Truthy(x.1) ==> PlainElement(sc, nested, x.1)
    ensures var o := SaveManyMany(db, sc, root, name, data, table, qf, qr, nested, bound);
      var ownerCol, relatedCol := ColumnSuffix(qf), ColumnSuffix(qr);
      o.res.Success? ==>
        var v := GetRelation(o.res.value.relations, name);
        && v.Some? && v.value.Arr? && IsList(v.value.entries)
        && SavedElems(sc, nested, db, o.db, FilterTruthy(Elements(data)), ValuesOf(v.value.entries))
        && o.db.pivots == WithoutOwner(db.pivots, table, ownerCol, KeyOf(sc, root))
                          + PivotRows(sc, table, ownerCol, KeyOf(sc, root), relatedCol, ValuesOf(v.value.entries))
  {
    var ownerCol, relatedCol := ColumnSuffix(qf), ColumnSuffix(qr);
    var wiped := DeletePivots(db, table, ownerCol, KeyOf(sc, root));
    var kept := FilterTruthy(Elements(data));
    KeptSmaller(data, bound);
    ManyManyLoaded(db, sc, root, name, data, table, qf, qr, nested, bound);
    if kept == [] {
      ManyManyEmpty(db, sc, root, name, data, table, qf, qr, nested, bound);
      EmptyRows(sc, db.pivots, table, ownerCol, KeyOf(sc, root), relatedCol);
    } else {
      ManyManySaved(wiped, sc, root, kept, ownerCol, relatedCol, nested, [], [], table, bound);
      ManyManyPlainPivots(wiped, sc, root, kept, ownerCol, relatedCol, nested, [], [], table, bound);
      var c := ManyManySteps(wiped, sc, root, kept, ownerCol, relatedCol, nested, [], [], table, bound);
      if c.res.Success? {
        var (saved, rows) := c.res.value;
        assert saved[0..] == saved;
        var o := SaveManyMany(db, sc, root, name, data, table, qf, qr, nested, bound);
        assert o.res.value == Replace(root, name, ListOf(saved));
        assert GetRelation(o.res.value.relations, name) == Some(ListOf(saved));
        assert ValuesOf(ListOf(saved).entries) == saved;
        assert o.db == InsertPivots(c.db, table, rows);
        assert c.db.pivots == wiped.pivots == WithoutOwner(db.pivots, table, ownerCol, KeyOf(sc, root));
        assert rows == PivotRows(sc, table, ownerCol, KeyOf(sc, root), relatedCol, saved);
      }
    }
  }
}
