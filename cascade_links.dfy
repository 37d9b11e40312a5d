/** How the save cascade links models through their keys: the pre-save copies
    each saved parent's owner key into the root, the post-save stamps the
    root's key into each child, and the write log shows parents saved before
    the root. */
module CascadeLinks {
  import opened Values
  import opened Schema
  import opened Strategy
  import opened Persistence
  import opened Cascade
  import opened CascadeFacts

  // ---------------------------------------------------------------------------
  // Loaded relations with unique names

  lemma {:induction false} UniqueGet(rels: seq<(string, Value)>, x: (string, Value))
    requires UniqueNames(rels) && x in rels
    ensures GetRelation(rels, x.0) == Some(x.1)
  {
    if rels[0] != x {
      assert x in rels[1..];
      var j :| 0 <= j < |rels[1..]| && rels[1..][j] == x;
      assert rels[j + 1] == x;
      UniqueGet(rels[1..], x);
    }
  }

  lemma {:induction false} SubsequenceIn<T>(r: seq<T>, s: seq<T>)
    requires Subsequence(r, s)
    ensures forall x :: x in r ==> x in s
    decreases |s|
  {
    if r != [] && s != [] {
      if r[0] == s[0] {
        SubsequenceIn(r[1..], s[1..]);
        forall x | x in r ensures x in s { if x != r[0] { assert x in r[1..]; assert x in s[1..]; } }
      } else {
        SubsequenceIn(r, s[1..]);
        forall x | x in r ensures x in s { assert x in s[1..]; }
      }
    }
  }

  /** Keeping some of the relations, in order, keeps their names unique. */
  lemma {:induction false} SubsequenceUnique(r: seq<(string, Value)>, s: seq<(string, Value)>)
    requires Subsequence(r, s) && UniqueNames(s)
    ensures UniqueNames(r)
    decreases |s|
  {
    if r != [] && s != [] {
      assert UniqueNames(s[1..]) by {
        forall i, j | 0 <= i < j < |s[1..]| ensures s[1..][i].0 != s[1..][j].0 { assert s[i + 1] == s[1..][i]; }
      }
      if r[0] == s[0] {
        SubsequenceUnique(r[1..], s[1..]);
        SubsequenceIn(r[1..], s[1..]);
        forall j | 0 < j < |r| ensures r[0].0 != r[j].0 {
          assert r[1..][j - 1] == r[j];
          assert r[j] in r[1..];
          var k :| 0 <= k < |s[1..]| && s[1..][k] == r[j];
          assert s[k + 1] == r[j];
        }
      } else {
        SubsequenceUnique(r, s[1..]);
      }
    }
  }

  lemma NamesUnique(a: seq<(string, Value)>, b: seq<(string, Value)>)
    requires Names(a) == Names(b) && UniqueNames(a)
    ensures UniqueNames(b)
  {
    forall i, j | 0 <= i < j < |b| ensures b[i].0 != b[j].0 {
      assert Names(a)[i] == b[i].0 && Names(a)[j] == b[j].0;
    }
  }

  /** The relation names in `items`. */
  function ItemNames(items: seq<(string, Value)>): (ns: set<string>)
    ensures forall x :: x in items ==> x.0 in ns
    ensures forall n :: n in ns ==> exists x :: x in items && x.0 == n
  {
    if items == [] then {}
    else
      assert forall x :: x in items[1..] ==> x in items;
      {items[0].0} + ItemNames(items[1..])
  }

  // ---------------------------------------------------------------------------
  // Pre-save

  /** The foreign keys of the belongs-to relations among `items`. */
  function ParentFks(sc: Schema, model: string, items: seq<(string, Value)>): (fks: set<string>)
    ensures forall x :: x in items && IsBelongsTo(sc, model, x.0) ==>
              RelationOf(sc, model, x.0).value.kind.foreignKey in fks
    ensures forall a :: a in fks ==>
              exists x :: x in items && IsBelongsTo(sc, model, x.0) && RelationOf(sc, model, x.0).value.kind.foreignKey == a
  {
    if items == [] then {}
    else
      assert forall x :: x in items[1..] ==> x in items;
      var n := items[0].0;
      (if IsBelongsTo(sc, model, n) then {RelationOf(sc, model, n).value.kind.foreignKey} else {})
      + ParentFks(sc, model, items[1..])
  }

  /** No two belongs-to relations of the class write the same foreign key. */
  predicate DistinctParentKeys(cls: ModelClass) {
    forall n, m :: n in cls.relations && m in cls.relations && n != m
                   && cls.relations[n].kind.BelongsTo? && cls.relations[m].kind.BelongsTo?
                   ==> cls.relations[n].kind.foreignKey != cls.relations[m].kind.foreignKey
  }

  /** `saveBelongsTo` changes only the relation it saves and the foreign key. */
  lemma BelongsToFrame(db: Db, sc: Schema, root: Entity, name: string, parent: Entity,
                       kind: RelationKind, nested: Strategy, bound: nat)
    requires kind.BelongsTo? && Size(parent) < bound
    ensures var o := SaveBelongsTo(db, sc, root, name, parent, kind, nested, bound);
      o.res.Success? ==>
        && o.res.value.model == root.model
        && Names(o.res.value.relations) == Names(SetRelation(root.relations, name, Null))
        && (forall n :: n != name ==> GetRelation(o.res.value.relations, n) == GetRelation(root.relations, n))
        && (forall a :: a != kind.foreignKey ==> Attr(o.res.value, a) == Attr(root, a))
  {
  }

  /** The pre-save changes only the belongs-to relations it visits. */
  lemma {:induction false} BeforeRelationsFrame(db: Db, sc: Schema, root: Entity, s: Strategy,
                                                items: seq<(string, Value)>, bound: nat)
    requires forall x :: x in items ==> ValueSize(x.1) < bound
    requires forall x :: x in items ==> x.0 in Names(root.relations)
    ensures var o := BeforeSteps(db, sc, root, s, items, bound);
      o.res.Success? ==>
        forall n :: n !in ItemNames(items) || !IsBelongsTo(sc, root.model, n) ==>
          GetRelation(o.res.value.relations, n) == GetRelation(root.relations, n)
    decreases |items|
  {
    if items != [] {
      var (name, data) := items[0];
      assert items[0] in items;
      assert forall x :: x in items[1..] ==> x in items;
      var rel := RelationOf(sc, root.model, name);
      if rel.Some? && rel.value.kind.BelongsTo? && data.Obj? {
        var o := SaveBelongsTo(db, sc, root, name, data.entity, rel.value.kind, Nested(s, name), bound);
        if o.res.Success? {
          BelongsToFrame(db, sc, root, name, data.entity, rel.value.kind, Nested(s, name), bound);
          BeforeRelationsFrame(o.db, sc, o.res.value, s, items[1..], bound);
        }
      } else {
        BeforeRelationsFrame(db, sc, root, s, items[1..], bound);
      }
    }
  }

  /** The pre-save changes only the foreign keys of the belongs-to relations it visits. */
  lemma {:induction false} BeforeAttrsFrame(db: Db, sc: Schema, root: Entity, s: Strategy,
                                            items: seq<(string, Value)>, bound: nat)
    requires forall x :: x in items ==> ValueSize(x.1) < bound
    requires forall x :: x in items ==> x.0 in Names(root.relations)
    ensures var o := BeforeSteps(db, sc, root, s, items, bound);
      o.res.Success? ==>
        forall a :: a !in ParentFks(sc, root.model, items) ==> Attr(o.res.value, a) == Attr(root, a)
    decreases |items|
  {
    if items != [] {
      var (name, data) := items[0];
      assert items[0] in items;
      assert forall x :: x in items[1..] ==> x in items;
      var rel := RelationOf(sc, root.model, name);
      if rel.Some? && rel.value.kind.BelongsTo? && data.Obj? {
        var o := SaveBelongsTo(db, sc, root, name, data.entity, rel.value.kind, Nested(s, name), bound);
        if o.res.Success? {
          BelongsToFrame(db, sc, root, name, data.entity, rel.value.kind, Nested(s, name), bound);
          BeforeAttrsFrame(o.db, sc, o.res.value, s, items[1..], bound);
        }
      } else {
        BeforeAttrsFrame(db, sc, root, s, items[1..], bound);
      }
    }
  }

  /** `parent` was saved, with the strategy the root's strategy `s` nests
      under `name`, after the writes of `db`, and the saved form is loaded on
      `r` under `name` with its owner key copied into the foreign key. */
  ghost predicate ParentLinked(sc: Schema, s: Strategy, db: Db, db': Db, r: Entity, name: string, parent: Entity) {
    var rel := RelationOf(sc, r.model, name);
    var p := GetRelation(r.relations, name);
    && rel.Some? && rel.value.kind.BelongsTo?
    && p.Some? && p.value.Obj? && SavedAs(sc, parent, p.value.entity)
    && SavedBetween(sc, Nested(s, name), db, db', parent, p.value.entity)
    && Attr(r, rel.value.kind.foreignKey) == Attr(p.value.entity, rel.value.kind.ownerKey)
  }

  lemma UniqueTail(items: seq<(string, Value)>)
    requires items != [] && UniqueNames(items)
    ensures UniqueNames(items[1..]) && items[0].0 !in ItemNames(items[1..])
    ensures forall x :: x in items[1..] ==> x in items && x.0 != items[0].0
  {
    forall i, j | 0 <= i < j < |items[1..]| ensures items[1..][i].0 != items[1..][j].0 {
      assert items[i + 1] == items[1..][i];
    }
    forall x | x in items[1..] ensures x in items && x.0 != items[0].0 {
      var j :| 0 <= j < |items[1..]| && items[1..][j] == x;
      assert items[j + 1] == x;
    }
  }

  /** A linked parent stays linked while its relation and the foreign key stay. */
  lemma LinkedKept(sc: Schema, s: Strategy, db: Db, db1: Db, db2: Db, r1: Entity, r2: Entity, name: string,
                   parent: Entity)
    requires ParentLinked(sc, s, db, db1, r1, name, parent) && db1.log <= db2.log
    requires r2.model == r1.model && GetRelation(r2.relations, name) == GetRelation(r1.relations, name)
    requires Attr(r2, RelationOf(sc, r1.model, name).value.kind.foreignKey)
             == Attr(r1, RelationOf(sc, r1.model, name).value.kind.foreignKey)
    ensures ParentLinked(sc, s, db, db2, r2, name, parent)
  {
    SavedLater(sc, Nested(s, name), db, db1, db2, parent, GetRelation(r1.relations, name).value.entity);
  }

  lemma LinkedEarlier(sc: Schema, s: Strategy, db: Db, db1: Db, db2: Db, r: Entity, name: string, parent: Entity)
    requires ParentLinked(sc, s, db1, db2, r, name, parent) && db.log <= db1.log
    ensures ParentLinked(sc, s, db, db2, r, name, parent)
  {
    SavedEarlier(sc, Nested(s, name), db, db1, db2, parent, GetRelation(r.relations, name).value.entity);
  }

  /** After the pre-save, every belongs-to parent it visited is saved and
      loaded, and the root's foreign key holds that parent's owner key. */
  lemma {:induction false} ParentsLinked(db: Db, sc: Schema, root: Entity, s: Strategy, items: seq<(string, Value)>,
                                         bound: nat)
    requires forall x :: x in items ==> ValueSize(x.1) < bound
    requires forall x :: x in items ==> x.0 in Names(root.relations)
    requires UniqueNames(items) && DistinctParentKeys(ClassOf(sc, root.model))
    ensures var o := BeforeSteps(db, sc, root, s, items, bound);
      o.res.Success? ==>
        forall x :: x in items && IsBelongsTo(sc, root.model, x.0) && x.1.Obj? ==>
          ParentLinked(sc, s, db, o.db, o.res.value, x.0, x.1.entity)
    decreases |items|
  {
    if items != [] {
      var (name, data) := items[0];
      assert items[0] in items;
      UniqueTail(items);
      var rel := RelationOf(sc, root.model, name);
      if rel.Some? && rel.value.kind.BelongsTo? && data.Obj? {
        var o1 := SaveBelongsTo(db, sc, root, name, data.entity, rel.value.kind, Nested(s, name), bound);
        if o1.res.Success? {
          assert ValueSize(data) == Size(data.entity);
          ParentsLinked(o1.db, sc, o1.res.value, s, items[1..], bound);
          ParentsLinkedStep(db, sc, root, s, items, bound, o1);
        }
      } else {
        ParentsLinked(db, sc, root, s, items[1..], bound);
      }
    }
  }

  /** The step of `ParentsLinked` that saves the head parent. */
  lemma ParentsLinkedStep(db: Db, sc: Schema, root: Entity, s: Strategy, items: seq<(string, Value)>, bound: nat,
                          o1: Outcome)
    requires forall x :: x in items ==> ValueSize(x.1) < bound
    requires forall x :: x in items ==> x.0 in Names(root.relations)
    requires UniqueNames(items) && DistinctParentKeys(ClassOf(sc, root.model))
    requires items != [] && IsBelongsTo(sc, root.model, items[0].0) && items[0].1.Obj?
    requires Size(items[0].1.entity) < bound
    requires var rel := RelationOf(sc, root.model, items[0].0);
      o1 == SaveBelongsTo(db, sc, root, items[0].0, items[0].1.entity, rel.value.kind, Nested(s, items[0].0), bound)
    requires o1.res.Success?
    requires var o := BeforeSteps(o1.db, sc, o1.res.value, s, items[1..], bound);
      o.res.Success? ==>
        forall x :: x in items[1..] && IsBelongsTo(sc, root.model, x.0) && x.1.Obj? ==>
          ParentLinked(sc, s, o1.db, o.db, o.res.value, x.0, x.1.entity)
    ensures var o := BeforeSteps(db, sc, root, s, items, bound);
      o.res.Success? ==>
        forall x :: x in items && IsBelongsTo(sc, root.model, x.0) && x.1.Obj? ==>
          ParentLinked(sc, s, db, o.db, o.res.value, x.0, x.1.entity)
  {
    var (name, data) := items[0];
    assert items[0] in items;
    UniqueTail(items);
    var rel := RelationOf(sc, root.model, name);
    var root1 := o1.res.value;
    var o := BeforeSteps(db, sc, root, s, items, bound);
    assert o == BeforeSteps(o1.db, sc, root1, s, items[1..], bound);
    if o.res.Success? {
      BeforeRelationsFrame(o1.db, sc, root1, s, items[1..], bound);
      BeforeAttrsFrame(o1.db, sc, root1, s, items[1..], bound);
      HeadKeyAlone(sc, root, items);
      HeadLinked(db, sc, root, name, data.entity, rel.value.kind, s, bound);
      LinkedKept(sc, s, db, o1.db, o.db, root1, o.res.value, name, data.entity);
      forall x | x in items[1..] && IsBelongsTo(sc, root.model, x.0) && x.1.Obj?
        ensures ParentLinked(sc, s, db, o.db, o.res.value, x.0, x.1.entity)
      {
        LinkedEarlier(sc, s, db, o1.db, o.db, o.res.value, x.0, x.1.entity);
      }
    }
  }

  /** The head parent, once saved with the nested strategy, is linked on the root. */
  lemma HeadLinked(db: Db, sc: Schema, root: Entity, name: string, parent: Entity, kind: RelationKind,
                   s: Strategy, bound: nat)
    requires IsBelongsTo(sc, root.model, name) && kind == RelationOf(sc, root.model, name).value.kind
    requires Size(parent) < bound
    ensures var o := SaveBelongsTo(db, sc, root, name, parent, kind, Nested(s, name), bound);
      o.res.Success? ==> ParentLinked(sc, s, db, o.db, o.res.value, name, parent)
  {
    SavedHere(db, sc, parent, Nested(s, name));
  }

  /** No later parent of distinct name writes the head parent's foreign key. */
  lemma HeadKeyAlone(sc: Schema, root: Entity, items: seq<(string, Value)>)
    requires items != [] && UniqueNames(items) && DistinctParentKeys(ClassOf(sc, root.model))
    requires IsBelongsTo(sc, root.model, items[0].0)
    ensures RelationOf(sc, root.model, items[0].0).value.kind.foreignKey !in ParentFks(sc, root.model, items[1..])
  {
    UniqueTail(items);
    var fk := RelationOf(sc, root.model, items[0].0).value.kind.foreignKey;
    forall x | x in items[1..] && IsBelongsTo(sc, root.model, x.0)
      ensures RelationOf(sc, root.model, x.0).value.kind.foreignKey != fk
    {
      assert x.0 != items[0].0;
    }
  }
}
