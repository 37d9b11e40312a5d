/** Properties of the fill half: what `deepFill` assigns and loads, how
    `resolveRelated` picks its model, and what a to-many relation holds. */
module FillFacts {
  import opened Values
  import opened Schema
  import opened Persistence
  import opened Cascade
  import opened Fill

  /** The keys of a PHP array are distinct. */
  predicate UniqueKeys(es: seq<(Key, Value)>) {
    forall i, j :: 0 <= i < j < |es| ==> es[i].0 != es[j].0
  }

  lemma {:induction false} UniqueValue(es: seq<(Key, Value)>, k: Key, v: Value, w: Value)
    requires UniqueKeys(es) && (k, v) in es && (k, w) in es
    ensures v == w
  {
    var i :| 0 <= i < |es| && es[i] == (k, v);
    var j :| 0 <= j < |es| && es[j] == (k, w);
    assert !(i < j) && !(j < i);
  }

  lemma EntryKey(es: seq<(Key, Value)>, k: Key, v: Value)
    requires (k, v) in es
    ensures k in KeysOf(es)
  {
    var i :| 0 <= i < |es| && es[i] == (k, v);
    assert KeysOf(es)[i] == k;
  }

  // ---------------------------------------------------------------------------
  // Attributes

  /** `deepFill` assigns every fillable attribute the data names its value,
      and leaves every other attribute as it was. */
  lemma DeepFillAssigns(db: Db, sc: Schema, e: Entity, data: Value, a: string, v: Value)
    requires data.Arr? && UniqueKeys(data.entries)
    requires (StrKey(a), v) in data.entries && a in ClassOf(sc, e.model).fillable
    ensures var r := DeepFill(db, sc, e, data);
      r.Success? ==> a in r.value.attrs && r.value.attrs[a] == v
  {
    var f := FillAttributes(e, ClassOf(sc, e.model).fillable, data.entries);
    EntryKey(data.entries, StrKey(a), v);
    UniqueValue(data.entries, StrKey(a), v, f.attrs[a]);
  }

  lemma DeepFillKeeps(db: Db, sc: Schema, e: Entity, data: Value, b: string)
    requires data.Arr?
    requires !(b in ClassOf(sc, e.model).fillable && StrKey(b) in KeysOf(data.entries))
    ensures var r := DeepFill(db, sc, e, data);
      r.Success? ==> Attr(r.value, b) == Attr(e, b)
  {
  }

  // ---------------------------------------------------------------------------
  // Relations

  /** Every entry `deepFill` routes is loaded as `deepSetRelation` loads it,
      from the relation loaded before the fill. */
  lemma DeepFillLoads(db: Db, sc: Schema, e: Entity, data: Value, n: string, v: Value)
    requires data.Arr? && UniqueKeys(data.entries)
    requires (StrKey(n), v) in data.entries && Routed(sc, e, StrKey(n))
    ensures var r := DeepFill(db, sc, e, data);
      r.Success? ==> LoadsAs(db, sc, e.model, n, GetRelation(e.relations, n), v, GetRelation(r.value.relations, n))
  {
    var f := FillAttributes(e, ClassOf(sc, e.model).fillable, data.entries);
    var i :| 0 <= i < |data.entries| && data.entries[i] == (StrKey(n), v);
    FillRelationsLoads(db, sc, f, data, 0, i);
  }

  lemma {:induction false} FillRelationsLoads(db: Db, sc: Schema, e: Entity, data: Value, i: nat, j: nat)
    requires data.Arr? && UniqueKeys(data.entries) && i <= j < |data.entries|
    requires Routed(sc, e, data.entries[j].0)
    decreases j - i
    ensures var n := data.entries[j].0.s;
      var r := FillRelations(db, sc, e, data, i);
      r.Success? ==> LoadsAs(db, sc, e.model, n, GetRelation(e.relations, n), data.entries[j].1,
                             GetRelation(r.value.relations, n))
  {
    var (k, v) := data.entries[i];
    var n := data.entries[j].0.s;
    if i == j {
      var s := DeepSetRelation(db, sc, e, n, v);
      DeepSetRelationLoads(db, sc, e, n, v);
      if s.Success? {
        var r := FillRelations(db, sc, s.value, data, i + 1);
        assert r == FillRelations(db, sc, e, data, i);
        assert !RoutedIn(sc, s.value, data.entries[i + 1..], n) by {
          var rest := data.entries[i + 1..];
          forall m | 0 <= m < |KeysOf(rest)| ensures KeysOf(rest)[m] != StrKey(n) {
            assert rest[m] == data.entries[i + 1 + m];
          }
        }
      }
    } else if !Routed(sc, e, k) {
      FillRelationsLoads(db, sc, e, data, i + 1, j);
    } else {
      var s := DeepSetRelation(db, sc, e, k.s, v);
      if s.Success? {
        assert k != data.entries[j].0;
        FillRelationsLoads(db, sc, s.value, data, i + 1, j);
      }
    }
  }

  /** `deepFill` changes no relation the data does not route to it. */
  lemma DeepFillFrame(db: Db, sc: Schema, e: Entity, data: Value, n: string)
    requires data.Arr?
    requires forall x :: x in data.entries && x.0 == StrKey(n) ==> !Routed(sc, e, x.0)
    ensures var r := DeepFill(db, sc, e, data);
      r.Success? ==> GetRelation(r.value.relations, n) == GetRelation(e.relations, n)
  {
    if StrKey(n) in KeysOf(data.entries) {
      var i :| 0 <= i < |data.entries| && KeysOf(data.entries)[i] == StrKey(n);
      assert data.entries[i] in data.entries;
    }
  }

  /** A relation policy that lists names allows exactly those names. */
  lemma ListedPolicy(es: seq<(Key, Value)>, name: string, listed: string)
    requires IsList(es) && Str(listed) in ValuesOf(es)
    ensures RelationAllowed(Arr(es), name) <==> Str(name) in ValuesOf(es)
  {
  }

  /** `false` and `true` allow no relation; `null` and `[]` allow all. */
  lemma PolicyExtremes(name: string)
    ensures !RelationAllowed(Bool(false), name) && !RelationAllowed(Bool(true), name)
    ensures RelationAllowed(Null, name) && RelationAllowed(Arr([]), name)
  {
  }

  // ---------------------------------------------------------------------------
  // resolveRelated

  /** What `resolveRelated` makes of the model `t` it settled on: `t` itself
      unless the data is a non-empty array, which is filled into `t`, by
      `deepFill` when its class has the trait and by `fill` of the fillable
      keys otherwise. */
  ghost function FilledInto(db: Db, sc: Schema, t: Entity, data: Value): Result<Entity> {
    if !data.Arr? || !Truthy(data) then Success(t)
    else
      var cls := ClassOf(sc, t.model);
      if cls.deep then DeepFill(db, sc, t, data) else Success(FillAttributes(t, cls.fillable, data.entries))
  }

  /** Filling data into a model assigns every fillable attribute the data
      names its value, and only a deep fill can fail. */
  lemma FilledAssigns(db: Db, sc: Schema, t: Entity, data: Value, a: string, v: Value)
    requires data.Arr? && UniqueKeys(data.entries)
    requires (StrKey(a), v) in data.entries && a in ClassOf(sc, t.model).fillable
    ensures var r := FilledInto(db, sc, t, data);
      && (!ClassOf(sc, t.model).deep ==> r.Success?)
      && (r.Success? ==> r.value.model == t.model && a in r.value.attrs && r.value.attrs[a] == v)
  {
    var cls := ClassOf(sc, t.model);
    if cls.deep {
      DeepFillAssigns(db, sc, t, data, a, v);
    } else {
      var f := FillAttributes(t, cls.fillable, data.entries);
      EntryKey(data.entries, StrKey(a), v);
      UniqueValue(data.entries, StrKey(a), v, f.attrs[a]);
    }
  }

  /** `resolveRelated` with non-model data assigns every fillable attribute
      of the chosen model's class the value the data gives it: on the loaded
      default when there is one, on the found or new model otherwise. */
  lemma ResolveAssigns(db: Db, sc: Schema, model: string, data: Value, default: Value, a: string, v: Value)
    requires data.Arr? && UniqueKeys(data.entries) && (StrKey(a), v) in data.entries
    requires a in ClassOf(sc, if default.Obj? then default.entity.model else model).fillable
    ensures var r := ResolveRelated(db, sc, model, data, default);
      r.Success? ==> a in r.value.attrs && r.value.attrs[a] == v
  {
    var r := ResolveRelated(db, sc, model, data, default);
    if r.Success? {
      if default.Obj? {
        ResolveDefaultFills(db, sc, model, data, default.entity);
        FilledAssigns(db, sc, default.entity, data, a, v);
      } else {
        var pk := ExplorePk(sc, model, data);
        if pk.value == -1 {
          ResolveFresh(db, sc, model, data);
          FilledAssigns(db, sc, NewInstance(sc, model), data, a, v);
        } else {
          ResolveFoundFills(db, sc, model, data, pk.value);
          FilledAssigns(db, sc, Find(db, sc, model, pk.value).value, data, a, v);
        }
      }
    }
  }

  /** A key that names no row is an error, whatever the data. */
  lemma ResolveNotFound(db: Db, sc: Schema, model: string, data: Value, k: int)
    requires !data.Obj? && ExplorePk(sc, model, data) == Success(k) && k != -1
    requires (model, k) !in db.records
    ensures ResolveRelated(db, sc, model, data, Null) == Failure(NotFound)
  {
  }

  /** Without a key a new model is made, and is returned as it is unless the
      data is a non-empty array. */
  lemma ResolveFresh(db: Db, sc: Schema, model: string, data: Value)
    requires !data.Obj? && ExplorePk(sc, model, data) == Success(-1)
    ensures !data.Arr? || !Truthy(data) ==> ResolveRelated(db, sc, model, data, Null) == Success(NewInstance(sc, model))
    ensures ResolveRelated(db, sc, model, data, Null) == FilledInto(db, sc, NewInstance(sc, model), data)
    ensures var r := ResolveRelated(db, sc, model, data, Null);
      r.Success? ==> r.value.model == model
  {
  }

  /** The model found by key keeps its stored attributes except those the
      data fills. */
  lemma ResolveFound(db: Db, sc: Schema, model: string, data: Value, k: int, b: string)
    requires !data.Obj? && ExplorePk(sc, model, data) == Success(k) && k != -1
    requires (model, k) in db.records
    requires !(data.Arr? && b in ClassOf(sc, model).fillable && StrKey(b) in KeysOf(data.entries))
    ensures var r := ResolveRelated(db, sc, model, data, Null);
      r.Success? ==> r.value.model == model && Attr(r.value, b) == Attr(Find(db, sc, model, k).value, b)
  {
  }

  /** A key that names a row gives that row's model, returned as it is
      unless the data is a non-empty array, which is then filled into it. */
  lemma ResolveFoundFills(db: Db, sc: Schema, model: string, data: Value, k: int)
    requires !data.Obj? && ExplorePk(sc, model, data) == Success(k) && k != -1
    requires (model, k) in db.records
    ensures Find(db, sc, model, k).Some?
    ensures var found := Find(db, sc, model, k).value;
      && ResolveRelated(db, sc, model, data, Null) == FilledInto(db, sc, found, data)
      && (!data.Arr? || !Truthy(data) ==> ResolveRelated(db, sc, model, data, Null) == Success(found))
  {
  }

  /** A loaded model is filled in place of a lookup: it keeps its class and
      every attribute the data does not fill. */
  lemma ResolveDefault(db: Db, sc: Schema, model: string, data: Value, default: Entity, b: string)
    requires !data.Obj?
    requires !(data.Arr? && b in ClassOf(sc, default.model).fillable && StrKey(b) in KeysOf(data.entries))
    ensures var r := ResolveRelated(db, sc, model, data, Obj(default));
      r.Success? ==> r.value.model == default.model && Attr(r.value, b) == Attr(default, b)
  {
  }

  /** A loaded model is used in place of a lookup: returned as it is unless
      the data is a non-empty array, which is then filled into it. */
  lemma ResolveDefaultFills(db: Db, sc: Schema, model: string, data: Value, default: Entity)
    requires !data.Obj?
    ensures ResolveRelated(db, sc, model, data, Obj(default)) == FilledInto(db, sc, default, data)
    ensures !data.Arr? || !Truthy(data) ==> ResolveRelated(db, sc, model, data, Obj(default)) == Success(default)
  {
  }

  /** A loaded model of a class without the trait is used without reading
      the database at all. */
  lemma ResolveDefaultNoLookup(db: Db, db': Db, sc: Schema, model: string, data: Value, default: Entity)
    requires !ClassOf(sc, default.model).deep
    ensures ResolveRelated(db, sc, model, data, Obj(default)) == ResolveRelated(db', sc, model, data, Obj(default))
  {
  }

  // ---------------------------------------------------------------------------
  // deepSetRelation

  /** A to-one relation is loaded with the model `resolveRelated` gives for
      the data, with the loaded model, if any, as its default. */
  ghost predicate ToOneLoaded(db: Db, sc: Schema, related: string, loaded: Option<Value>, data: Value, v: Option<Value>) {
    && v.Some? && v.value.Obj?
    && ResolveRelated(db, sc, related, data, if loaded.Some? then loaded.value else Null) == Success(v.value.entity)
  }

  /** A to-many relation is loaded with one model per non-numeric element,
      each the one `resolveRelated` gives for it with no default, in order,
      followed by the models found by the numeric elements. */
  ghost predicate ToManyLoaded(db: Db, sc: Schema, related: string, data: Value, v: Option<Value>) {
    var xs := ValuesOf(Elements(data));
    var nn := NonNumerics(xs);
    var found := FindMany(db, sc, related, KeysOfIds(Numerics(xs)));
    && v.Some? && v.value.Arr? && IsList(v.value.entries)
    && var vs := ValuesOf(v.value.entries);
    && |vs| == |nn| + |found|
    && (forall j :: 0 <= j < |nn| ==> vs[j].Obj? && ResolveRelated(db, sc, related, nn[j], Null) == Success(vs[j].entity))
    && vs[|nn|..] == Objs(found)
  }

  /** What `deepSetRelation($name, $data)` on a model of class `model` leaves
      loaded under `name`, given what was loaded before. */
  ghost predicate LoadsAs(db: Db, sc: Schema, model: string, name: string, loaded: Option<Value>, data: Value, v: Option<Value>) {
    var rel := RelationOf(sc, model, name);
    Truthy(data) && rel.Some? ==>
      match rel.value.kind
      case BelongsTo(_, _) => ToOneLoaded(db, sc, rel.value.related, loaded, data, v)
      case HasOne(_, _) => ToOneLoaded(db, sc, rel.value.related, loaded, data, v)
      case HasMany(_, _) => ToManyLoaded(db, sc, rel.value.related, data, v)
      case BelongsToMany(_, _, _) => ToManyLoaded(db, sc, rel.value.related, data, v)
      case OtherKind => v == loaded
  }

  /** When `deepSetRelation` on non-empty data and an existing relation
      succeeds: every model it resolves resolves. */
  ghost predicate Resolves(db: Db, sc: Schema, model: string, name: string, loaded: Option<Value>, data: Value) {
    var rel := RelationOf(sc, model, name);
    rel.Some? ==>
      match rel.value.kind
      case BelongsTo(_, _) => ResolveRelated(db, sc, rel.value.related, data, if loaded.Some? then loaded.value else Null).Success?
      case HasOne(_, _) => ResolveRelated(db, sc, rel.value.related, data, if loaded.Some? then loaded.value else Null).Success?
      case HasMany(_, _) => AllResolve(db, sc, rel.value.related, NonNumerics(ValuesOf(Elements(data))))
      case BelongsToMany(_, _, _) => AllResolve(db, sc, rel.value.related, NonNumerics(ValuesOf(Elements(data))))
      case OtherKind => true
  }

  ghost predicate AllResolve(db: Db, sc: Schema, related: string, nn: seq<Value>) {
    forall j :: 0 <= j < |nn| ==> ResolveRelated(db, sc, related, nn[j], Null).Success?
  }

  /** `deepSetRelation` fails for non-empty data on an existing relation
      exactly when a model it resolves does not, and otherwise loads what
      `LoadsAs` says. */
  lemma DeepSetRelationLoads(db: Db, sc: Schema, e: Entity, name: string, data: Value)
    ensures var r := DeepSetRelation(db, sc, e, name, data);
      var loaded := GetRelation(e.relations, name);
      && (Truthy(data) && RelationOf(sc, e.model, name).Some? ==>
            (r.Success? <==> Resolves(db, sc, e.model, name, loaded, data)))
      && (r.Success? ==> LoadsAs(db, sc, e.model, name, loaded, data, GetRelation(r.value.relations, name)))
  {
    var rel := RelationOf(sc, e.model, name);
    if Truthy(data) && rel.Some? {
      var kind := rel.value.kind;
      if kind.HasMany? || kind.BelongsToMany? {
        ToManyLoads(db, sc, e, name, data);
      }
    }
  }

  lemma ToManyLoads(db: Db, sc: Schema, e: Entity, name: string, data: Value)
    requires Truthy(data) && RelationOf(sc, e.model, name).Some?
    requires var k := RelationOf(sc, e.model, name).value.kind; k.HasMany? || k.BelongsToMany?
    ensures var r := DeepSetRelation(db, sc, e, name, data);
      var related := RelationOf(sc, e.model, name).value.related;
      && (r.Success? <==> AllResolve(db, sc, related, NonNumerics(ValuesOf(Elements(data)))))
      && (r.Success? ==> ToManyLoaded(db, sc, related, data, GetRelation(r.value.relations, name)))
  {
    var related := RelationOf(sc, e.model, name).value.related;
    assert Elements(data)[0..] == Elements(data);
    PartitionResolves(db, sc, related, data, 0);
    var p := Partition(db, sc, related, data, 0);
    if p.Success? {
      ListLoaded(db, sc, related, data, p.value);
    }
  }

  /** The list built from a successful loop is what `ToManyLoaded` says. */
  lemma ListLoaded(db: Db, sc: Schema, related: string, data: Value, pv: (seq<Entity>, seq<Value>))
    requires pv.1 == Numerics(ValuesOf(Elements(data)))
    requires ResolvedAs(db, sc, related, NonNumerics(ValuesOf(Elements(data))), pv.0)
    ensures ToManyLoaded(db, sc, related, data, Some(ListOf(ToMany(db, sc, related, pv))))
  {
    var nn := NonNumerics(ValuesOf(Elements(data)));
    var vs := ToMany(db, sc, related, pv);
    ToManyFound(db, sc, related, pv);
    assert ValuesOf(ListOf(vs).entries) == vs;
    forall j | 0 <= j < |nn| ensures vs[j] == Obj(pv.0[j]) {
      assert vs[..|pv.0|][j] == vs[j];
    }
  }

  /** `ms` are the models `resolveRelated` gives for `nn`, one each, in order. */
  ghost predicate ResolvedAs(db: Db, sc: Schema, model: string, nn: seq<Value>, ms: seq<Entity>) {
    |ms| == |nn| && forall j :: 0 <= j < |nn| ==> ResolveRelated(db, sc, model, nn[j], Null) == Success(ms[j])
  }

  lemma ResolvesCons(db: Db, sc: Schema, model: string, d: Value, nn: seq<Value>)
    ensures AllResolve(db, sc, model, [d] + nn) <==>
      ResolveRelated(db, sc, model, d, Null).Success? && AllResolve(db, sc, model, nn)
    ensures forall m, ms :: ResolvedAs(db, sc, model, nn, ms) && ResolveRelated(db, sc, model, d, Null) == Success(m) ==>
      ResolvedAs(db, sc, model, [d] + nn, [m] + ms)
  {
    if ResolveRelated(db, sc, model, d, Null).Success? && AllResolve(db, sc, model, nn) {
      forall j | 0 <= j < |[d] + nn| ensures ResolveRelated(db, sc, model, ([d] + nn)[j], Null).Success? {
        if j > 0 { assert ([d] + nn)[j] == nn[j - 1]; }
      }
    }
    if AllResolve(db, sc, model, [d] + nn) {
      assert ([d] + nn)[0] == d;
      forall j | 0 <= j < |nn| ensures ResolveRelated(db, sc, model, nn[j], Null).Success? {
        assert ([d] + nn)[j + 1] == nn[j];
      }
    }
    forall m, ms | ResolvedAs(db, sc, model, nn, ms) && ResolveRelated(db, sc, model, d, Null) == Success(m)
      ensures ResolvedAs(db, sc, model, [d] + nn, [m] + ms)
    {
      forall j | 0 <= j < |[d] + nn| ensures ResolveRelated(db, sc, model, ([d] + nn)[j], Null) == Success(([m] + ms)[j]) {
        if j > 0 { assert ([d] + nn)[j] == nn[j - 1] && ([m] + ms)[j] == ms[j - 1]; }
      }
    }
  }

  /** The loop over the elements from `i` on fails exactly when a
      non-numeric element does not resolve, and otherwise resolves each
      non-numeric element with no default, in order. */
  lemma {:induction false} PartitionResolves(db: Db, sc: Schema, model: string, data: Value, i: nat)
    requires i <= |Elements(data)|
    decreases |Elements(data)| - i
    ensures var nn := NonNumerics(ValuesOf(Elements(data)[i..]));
      var p := Partition(db, sc, model, data, i);
      && (p.Success? <==> AllResolve(db, sc, model, nn))
      && (p.Success? ==> ResolvedAs(db, sc, model, nn, p.value.0))
  {
    var es := Elements(data);
    if i == |es| {
      assert ValuesOf(es[i..]) == [];
    } else {
      PartitionResolves(db, sc, model, data, i + 1);
      PartitionStep(db, sc, model, data, i);
      if !IsNumeric(es[i].1) {
        ResolvesCons(db, sc, model, es[i].1, NonNumerics(ValuesOf(es[i + 1..])));
      }
    }
  }

  /** One pass of the loop: a numeric element adds no model, any other adds
      the one it resolves to in front of those of the rest. */
  lemma PartitionStep(db: Db, sc: Schema, model: string, data: Value, i: nat)
    requires i < |Elements(data)|
    ensures var es := Elements(data);
      var d := es[i].1;
      var p := Partition(db, sc, model, data, i);
      var rest := Partition(db, sc, model, data, i + 1);
      var o := ResolveRelated(db, sc, model, d, Null);
      && (IsNumeric(d) ==>
            && NonNumerics(ValuesOf(es[i..])) == NonNumerics(ValuesOf(es[i + 1..]))
            && (p.Success? <==> rest.Success?) && (p.Success? ==> p.value.0 == rest.value.0))
      && (!IsNumeric(d) ==>
            && NonNumerics(ValuesOf(es[i..])) == [d] + NonNumerics(ValuesOf(es[i + 1..]))
            && (p.Success? <==> o.Success? && rest.Success?)
            && (p.Success? ==> p.value.0 == [o.value] + rest.value.0))
  {
    var es := Elements(data);
    ValuesOfFrom(es, i);
    var tail := ValuesOf(es[i + 1..]);
    assert ([es[i].1] + tail)[1..] == tail;
  }

  /** A to-many relation given only keys holds the models found by them: one
      per distinct key that has a row, in the order the keys first occur. */
  lemma ToManyFoundByKeys(db: Db, sc: Schema, e: Entity, name: string, data: Value)
    requires Truthy(data) && RelationOf(sc, e.model, name).Some?
    requires var k := RelationOf(sc, e.model, name).value.kind; k.HasMany? || k.BelongsToMany?
    requires forall v :: v in ValuesOf(Elements(data)) ==> IsNumeric(v)
    ensures var r := DeepSetRelation(db, sc, e, name, data);
      var model := RelationOf(sc, e.model, name).value.related;
      && r.Success?
      && ValuesOf(GetRelation(r.value.relations, name).value.entries)
         == Objs(FindMany(db, sc, model, KeysOfIds(ValuesOf(Elements(data)))))
  {
    var model := RelationOf(sc, e.model, name).value.related;
    AllNumeric(db, sc, model, data, 0);
    assert Elements(data)[0..] == Elements(data);
  }

  lemma {:induction false} AllNumeric(db: Db, sc: Schema, model: string, data: Value, i: nat)
    requires i <= |Elements(data)|
    requires forall v :: v in ValuesOf(Elements(data)) ==> IsNumeric(v)
    decreases |Elements(data)| - i
    ensures Partition(db, sc, model, data, i) == Success(([], ValuesOf(Elements(data)[i..])))
  {
    var es := Elements(data);
    if i == |es| {
      assert ValuesOf(es[i..]) == [];
    } else {
      ValuesOfFrom(es, i);
      assert ValuesOf(es)[i] == es[i].1;
      AllNumeric(db, sc, model, data, i + 1);
    }
  }
}
