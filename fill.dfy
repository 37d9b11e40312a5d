/** The fill half of the engine: `deepFill` assigns the fillable attributes
    and routes every other key naming a relation to `deepSetRelation`, which
    resolves the related models from nested data, primary keys or models and
    loads them. The database is only read. */
module Fill {
  import opened Values
  import opened Schema
  import opened Persistence
  import opened Cascade

  /** Eloquent's `fill`, for a class with a non-empty `$fillable`: every entry
      whose key is a fillable attribute name is assigned, in order. */
  function FillAttributes(e: Entity, fillable: set<string>, entries: seq<(Key, Value)>): (r: Entity)
    decreases |entries|
    ensures r.model == e.model && r.relations == e.relations && r.deepFillable == e.deepFillable
    ensures forall a :: !(a in fillable && StrKey(a) in KeysOf(entries)) ==>
              (a in r.attrs <==> a in e.attrs) && Attr(r, a) == Attr(e, a)
    ensures forall a :: a in fillable && StrKey(a) in KeysOf(entries) ==> a in r.attrs && (StrKey(a), r.attrs[a]) in entries
  {
    if entries == [] then e
    else
      var (k, v) := entries[0];
      var e' := if k.StrKey? && k.s in fillable then SetAttr(e, k.s, v) else e;
      var r := FillAttributes(e', fillable, entries[1..]);
      assert KeysOf(entries)[0] == k;
      KeysOfTail(entries);
      assert forall x :: x in entries[1..] ==> x in entries;
      r
  }

  lemma KeysOfTail(es: seq<(Key, Value)>)
    requires es != []
    ensures forall k :: k in KeysOf(es) <==> k == es[0].0 || k in KeysOf(es[1..])
  {
    assert KeysOf(es) == [es[0].0] + KeysOf(es[1..]);
  }

  lemma ValuesOfFrom(es: seq<(Key, Value)>, i: nat)
    requires i < |es|
    ensures ValuesOf(es[i..]) == [es[i].1] + ValuesOf(es[i + 1..])
  {
    assert ValuesOf(es[i..])[1..] == ValuesOf(es[i + 1..]);
  }

  /** Whether the `deepFillable` policy `policy` lets `deepFill` fill the
      relation `name`: `false` (caught by `=== false`) and `true` (no offset
      is set on a scalar) allow none; any other empty value allows all; a list
      of names is flipped into a key set, which allows all when no value could
      be flipped; a keyed array allows the names set to a non-null value; any
      other non-empty scalar or object allows none. */
  predicate RelationAllowed(policy: Value, name: string) {
    match policy
    case Bool(_) => false
    case Arr(es) =>
      if IsList(es) then
        (forall v :: v in ValuesOf(es) ==> !v.Str? && !v.Int?) || Str(name) in ValuesOf(es)
      else Lookup(es, StrKey(name)) != Null
    case _ => !Truthy(policy)
  }

  /** `deepFill` hands the entry with key `k` to `deepSetRelation`: it is not a
      fillable attribute (`array_diff_key`), it names a relation method
      (`method_exists`) and the entity's policy allows it. */
  predicate Routed(sc: Schema, e: Entity, k: Key) {
    var cls := ClassOf(sc, e.model);
    k.StrKey? && k.s !in cls.fillable && k.s in cls.relations && RelationAllowed(e.deepFillable, k.s)
  }

  /** `explorePk`: the primary key the data names, or -1. How `resolveRelated`
      acts on it is stated by `FillFacts.ResolveFresh` (-1), `ResolveFound` and
      `ResolveNotFound` (a key with and without a row). */
  function ExplorePk(sc: Schema, model: string, data: Value): (r: Result<int>)
    ensures data.Int? ==> r == Success(data.i)
    ensures data.Obj? ==> r == ToInt(KeyOf(sc, data.entity))
    ensures data.Arr? ==>
      var v := Lookup(data.entries, StrKey(ClassOf(sc, model).keyName));
      r == if v.Null? then Success(-1) else ToInt(v)
    ensures !data.Int? && !data.Obj? && !data.Arr? ==> r == Success(-1)
  {
    match data
    case Int(i) => Success(i)
    case Obj(x) => ToInt(KeyOf(sc, x))
    case Arr(es) =>
      var v := Lookup(es, StrKey(ClassOf(sc, model).keyName));
      if v.Null? then Success(-1) else ToInt(v)
    case _ => Success(-1)
  }

  /** `resolveRelated`: the model a relation of class `model` gets from
      `data`. A model is taken as it is. Otherwise the loaded `default` is
      used, and with none the model is found by the key `explorePk` names, or
      created when it names none; then non-empty array data is filled in,
      deeply when the class has the trait. A loaded collection is not a model,
      and neither is the `null` a failed `find` leaves. */
  function ResolveRelated(db: Db, sc: Schema, model: string, data: Value, default: Value): (r: Result<Entity>)
    decreases data, 5
    ensures data.Obj? ==> r == Success(data.entity)
    ensures !data.Obj? && !default.Null? && !default.Obj? ==> r == Failure(NotAnEntity)
    ensures r.Success? && !data.Obj? ==>
      r.value.model == if default.Obj? then default.entity.model else model
  {
    if data.Obj? then Success(data.entity)
    else
      var target :=
        if default.Obj? then Success(default.entity)
        else if !default.Null? then Failure(NotAnEntity)
        else
          var pk := ExplorePk(sc, model, data);
          if pk.Failure? then Failure(pk.error)
          else if pk.value != -1 then
            var found := Find(db, sc, model, pk.value);
            if found.None? then Failure(NotFound) else Success(found.value)
          else Success(NewInstance(sc, model));
      if target.Failure? then target
      else if !data.Arr? || !Truthy(data) then target
      else
        var cls := ClassOf(sc, target.value.model);
        if cls.deep then DeepFill(db, sc, target.value, data)
        else Success(FillAttributes(target.value, cls.fillable, data.entries))
  }

  /** `deepFill`: fill the attributes, then route the other keys. */
  function DeepFill(db: Db, sc: Schema, e: Entity, data: Value): (r: Result<Entity>)
    decreases data, 4
    ensures !data.Arr? ==> r == Failure(NotAnArray)
    ensures data.Arr? && r.Success? ==>
      && r.value.model == e.model && r.value.deepFillable == e.deepFillable
      && r.value.attrs == FillAttributes(e, ClassOf(sc, e.model).fillable, data.entries).attrs
      && (forall n :: !RoutedIn(sc, e, data.entries, n) ==>
            GetRelation(r.value.relations, n) == GetRelation(e.relations, n))
  {
    if !data.Arr? then Failure(NotAnArray)
    else
      var filled := FillAttributes(e, ClassOf(sc, e.model).fillable, data.entries);
      FillRelations(db, sc, filled, data, 0)
  }

  /** Some entry of `entries` with key `name` is routed to `deepSetRelation`. */
  predicate RoutedIn(sc: Schema, e: Entity, entries: seq<(Key, Value)>, name: string) {
    StrKey(name) in KeysOf(entries) && Routed(sc, e, StrKey(name))
  }

  /** The `foreach` of `deepFill` over the entries of `data` from `i` on. */
  function FillRelations(db: Db, sc: Schema, e: Entity, data: Value, i: nat): (r: Result<Entity>)
    requires data.Arr? && i <= |data.entries|
    decreases data, 3, |data.entries| - i
    ensures r.Success? ==>
      && r.value.model == e.model && r.value.deepFillable == e.deepFillable && r.value.attrs == e.attrs
      && (forall n :: !RoutedIn(sc, e, data.entries[i..], n) ==>
            GetRelation(r.value.relations, n) == GetRelation(e.relations, n))
  {
    if i == |data.entries| then Success(e)
    else
      var (k, v) := data.entries[i];
      assert data.entries[i] in data.entries;
      RoutedInStep(sc, e, data.entries, i);
      if !Routed(sc, e, k) then FillRelations(db, sc, e, data, i + 1)
      else
        var s := DeepSetRelation(db, sc, e, k.s, v);
        if s.Failure? then s
        else
          RoutedSame(sc, e, s.value, data.entries[i + 1..]);
          FillRelations(db, sc, s.value, data, i + 1)
  }

  lemma RoutedInStep(sc: Schema, e: Entity, es: seq<(Key, Value)>, i: nat)
    requires i < |es|
    ensures forall n :: RoutedIn(sc, e, es[i + 1..], n) ==> RoutedIn(sc, e, es[i..], n)
    ensures Routed(sc, e, es[i].0) ==> RoutedIn(sc, e, es[i..], es[i].0.s)
  {
    assert KeysOf(es[i..])[0] == es[i].0;
    forall n | RoutedIn(sc, e, es[i + 1..], n) ensures RoutedIn(sc, e, es[i..], n) {
      var j :| 0 <= j < |es[i + 1..]| && KeysOf(es[i + 1..])[j] == StrKey(n);
      assert KeysOf(es[i..])[j + 1] == StrKey(n);
    }
  }

  /** Routing depends only on the class and the policy. */
  lemma RoutedSame(sc: Schema, e: Entity, e': Entity, es: seq<(Key, Value)>)
    requires e'.model == e.model && e'.deepFillable == e.deepFillable
    ensures forall n :: RoutedIn(sc, e', es, n) == RoutedIn(sc, e, es, n)
  {
  }

  /** `deepSetRelation($name, $data)`: nothing for empty data; a to-one
      relation loads the model `resolveRelated` gives; a to-many relation
      loads a list of the models resolved from the non-numeric elements
      followed by the models found by the numeric ones. */
  function DeepSetRelation(db: Db, sc: Schema, e: Entity, name: string, data: Value): (r: Result<Entity>)
    decreases data, 7
    ensures !Truthy(data) ==> r == Success(e)
    ensures Truthy(data) && RelationOf(sc, e.model, name).None? ==> r == Failure(NoSuchRelation)
    ensures r.Success? ==>
      && r.value.model == e.model && r.value.attrs == e.attrs && r.value.deepFillable == e.deepFillable
      && (forall n :: n != name ==> GetRelation(r.value.relations, n) == GetRelation(e.relations, n))
      && SetAs(sc, e.model, name, data, GetRelation(r.value.relations, name))
  {
    if !Truthy(data) then Success(e)
    else
      var rel := RelationOf(sc, e.model, name);
      if rel.None? then Failure(NoSuchRelation)
      else
        var loaded := GetRelation(e.relations, name);
        var default := if loaded.Some? then loaded.value else Null;
        match rel.value.kind
        case BelongsTo(_, _) =>
          var o := ResolveRelated(db, sc, rel.value.related, data, default);
          if o.Failure? then Failure(o.error) else Success(Replace(e, name, Obj(o.value)))
        case HasOne(_, _) =>
          var o := ResolveRelated(db, sc, rel.value.related, data, default);
          if o.Failure? then Failure(o.error) else Success(Replace(e, name, Obj(o.value)))
        case HasMany(_, _) =>
          var p := Partition(db, sc, rel.value.related, data, 0);
          if p.Failure? then Failure(p.error) else Success(Replace(e, name, ListOf(ToMany(db, sc, rel.value.related, p.value))))
        case BelongsToMany(_, _, _) =>
          var p := Partition(db, sc, rel.value.related, data, 0);
          if p.Failure? then Failure(p.error) else Success(Replace(e, name, ListOf(ToMany(db, sc, rel.value.related, p.value))))
        case OtherKind => Success(e)
  }

  /** What `deepSetRelation` leaves loaded under `name` for non-empty data:
      a model for a to-one relation; for a to-many relation a list of models,
      no more than the data has elements. */
  ghost predicate SetAs(sc: Schema, model: string, name: string, data: Value, v: Option<Value>) {
    var rel := RelationOf(sc, model, name);
    Truthy(data) && rel.Some? ==>
      && ((rel.value.kind.BelongsTo? || rel.value.kind.HasOne?) ==> v.Some? && v.value.Obj?)
      && ((rel.value.kind.HasMany? || rel.value.kind.BelongsToMany?) ==>
            && v.Some? && v.value.Arr? && IsList(v.value.entries)
            && |v.value.entries| <= |Elements(data)|
            && forall x :: x in ValuesOf(v.value.entries) ==> x.Obj?)
  }

  /** The elements of `vs` `is_numeric` keeps, in order. */
  function Numerics(vs: seq<Value>): (r: seq<Value>)
    ensures forall v :: v in r <==> v in vs && IsNumeric(v)
    ensures |r| <= |vs|
  {
    if vs == [] then []
    else if IsNumeric(vs[0]) then [vs[0]] + Numerics(vs[1..])
    else Numerics(vs[1..])
  }

  /** The elements of `vs` `is_numeric` rejects, which the loop resolves, in
      order. */
  function NonNumerics(vs: seq<Value>): (r: seq<Value>)
    ensures forall v :: v in r <==> v in vs && !IsNumeric(v)
    ensures |r| <= |vs|
  {
    if vs == [] then []
    else if IsNumeric(vs[0]) then NonNumerics(vs[1..])
    else [vs[0]] + NonNumerics(vs[1..])
  }

  /** Each of the two keeps its elements as often as they occur, in order. */
  lemma {:induction false} NumericsKeep(vs: seq<Value>)
    ensures Subsequence(Numerics(vs), vs) && Subsequence(NonNumerics(vs), vs)
    ensures forall v :: multiset(Numerics(vs))[v] == if IsNumeric(v) then multiset(vs)[v] else 0
    ensures forall v :: multiset(NonNumerics(vs))[v] == if IsNumeric(v) then 0 else multiset(vs)[v]
  {
    if vs != [] {
      NumericsKeep(vs[1..]);
      var n := Numerics(vs[1..]);
      var o := NonNumerics(vs[1..]);
      assert vs == [vs[0]] + vs[1..];
      if IsNumeric(vs[0]) {
        assert ([vs[0]] + n)[1..] == n;
        SubsequenceSkip(o, vs);
      } else {
        assert ([vs[0]] + o)[1..] == o;
        SubsequenceSkip(n, vs);
      }
    }
  }

  /** Every element is either numeric or not. */
  lemma {:induction false} NumericsSplit(vs: seq<Value>)
    ensures |Numerics(vs)| + |NonNumerics(vs)| == |vs|
  {
    if vs != [] { NumericsSplit(vs[1..]); }
  }

  /** The collection `deepSetRelation` loads from the resolved models and the
      keys: the resolved models come first. */
  function ToMany(db: Db, sc: Schema, model: string, p: (seq<Entity>, seq<Value>)): (r: seq<Value>)
    requires forall v :: v in p.1 ==> IsNumeric(v)
    ensures |p.0| <= |r| <= |p.0| + |p.1|
    ensures forall v :: v in r ==> v.Obj?
    ensures r[..|p.0|] == Objs(p.0)
  {
    var found := if p.1 == [] then [] else FindMany(db, sc, model, KeysOfIds(p.1));
    Objs(p.0) + Objs(found)
  }

  /** After the resolved models come the models the keys find: the model of
      every key `FoundKeys` keeps, in its order. */
  lemma ToManyFound(db: Db, sc: Schema, model: string, p: (seq<Entity>, seq<Value>))
    requires forall v :: v in p.1 ==> IsNumeric(v)
    ensures var r := ToMany(db, sc, model, p);
      var fk := FoundKeys(db, model, KeysOfIds(p.1));
      && r[|p.0|..] == Objs(FindMany(db, sc, model, KeysOfIds(p.1)))
      && |r| == |p.0| + |fk|
      && forall j :: 0 <= j < |fk| ==>
           Find(db, sc, model, fk[j]).Some? && r[|p.0| + j] == Obj(Find(db, sc, model, fk[j]).value)
  {
    var r := ToMany(db, sc, model, p);
    var found := FindMany(db, sc, model, KeysOfIds(p.1));
    if p.1 == [] {
      assert KeysOfIds(p.1) == [];
    }
    assert r == Objs(p.0) + Objs(found);
    assert r[|p.0|..] == Objs(found);
    var fk := FoundKeys(db, model, KeysOfIds(p.1));
    forall j | 0 <= j < |fk| ensures r[|p.0| + j] == Obj(Find(db, sc, model, fk[j]).value) {
      assert r[|p.0| + j] == Objs(found)[j];
    }
  }

  function Objs(es: seq<Entity>): (r: seq<Value>)
    ensures |r| == |es| && forall i :: 0 <= i < |es| ==> r[i] == Obj(es[i])
  {
    seq(|es|, i requires 0 <= i < |es| => Obj(es[i]))
  }

  /** The `foreach` of `deepSetRelation` over the elements of `data` from `i`
      on: the models resolved from the non-numeric elements, in order, and the
      numeric elements, kept as keys. */
  function Partition(db: Db, sc: Schema, model: string, data: Value, i: nat): (r: Result<(seq<Entity>, seq<Value>)>)
    requires i <= |Elements(data)|
    decreases data, 6, |Elements(data)| - i
    ensures r.Success? ==>
      && r.value.1 == Numerics(ValuesOf(Elements(data)[i..]))
      && |r.value.0| + |r.value.1| == |Elements(data)| - i
  {
    var es := Elements(data);
    if i == |es| then
      assert ValuesOf(es[i..]) == [];
      Success(([], []))
    else
      var d := es[i].1;
      assert es[i] in es;
      ValuesOfFrom(es, i);
      var rest := Partition(db, sc, model, data, i + 1);
      if IsNumeric(d) then
        if rest.Failure? then rest else Success((rest.value.0, [d] + rest.value.1))
      else
        var o := ResolveRelated(db, sc, model, d, Null);
        if o.Failure? then Failure(o.error)
        else if rest.Failure? then rest
        else Success(([o.value] + rest.value.0, rest.value.1))
  }

  /** The loop's state `(resolved, ids)` followed by what the rest of the loop adds. */
  function Join(resolved: seq<Entity>, ids: seq<Value>, rest: Result<(seq<Entity>, seq<Value>)>): Result<(seq<Entity>, seq<Value>)> {
    if rest.Failure? then rest else Success((resolved + rest.value.0, ids + rest.value.1))
  }

  lemma JoinNothing(r: Result<(seq<Entity>, seq<Value>)>)
    ensures Join([], [], r) == r
  {
    if r.Success? {
      assert [] + r.value.0 == r.value.0 && [] + r.value.1 == r.value.1;
    }
  }

  /** One pass of the loop moves one element from the rest into the state. */
  lemma JoinStep(db: Db, sc: Schema, model: string, data: Value, i: nat, resolved: seq<Entity>, ids: seq<Value>)
    requires i < |Elements(data)|
    ensures var d := Elements(data)[i].1;
      var here := Join(resolved, ids, Partition(db, sc, model, data, i));
      var next := Partition(db, sc, model, data, i + 1);
      && (IsNumeric(d) ==> here == Join(resolved, ids + [d], next))
      && (!IsNumeric(d) ==>
            var o := ResolveRelated(db, sc, model, d, Null);
            && (o.Failure? ==> here == Failure(o.error))
            && (o.Success? ==> here == Join(resolved + [o.value], ids, next)))
  {
    var d := Elements(data)[i].1;
    var next := Partition(db, sc, model, data, i + 1);
    if next.Success? {
      assert ids + ([d] + next.value.1) == ids + [d] + next.value.1;
      if !IsNumeric(d) {
        var o := ResolveRelated(db, sc, model, d, Null);
        if o.Success? {
          assert resolved + ([o.value] + next.value.0) == resolved + [o.value] + next.value.0;
        }
      }
    }
  }
}
