/** The fill half as the program runs it: `deepFill`, `deepSetRelation` and
    `resolveRelated` as methods whose loops update the entity and the
    collections step by step, each proved to return what its counterpart in
    `Fill` specifies. */
module Filling {
  import opened Values
  import opened Schema
  import opened Persistence
  import Cascade
  import Fill

  /** `deepFill($data)`. */
  method DeepFill(db: Db, sc: Schema, e: Entity, data: Value) returns (r: Result<Entity>)
    decreases data, 4
    ensures r == Fill.DeepFill(db, sc, e, data)
  {
    if !data.Arr? {
      return Failure(NotAnArray);
    }
    var cur := Fill.FillAttributes(e, ClassOf(sc, e.model).fillable, data.entries);
    var i := 0;
    while i < |data.entries|
      invariant 0 <= i <= |data.entries|
      invariant Fill.FillRelations(db, sc, cur, data, i) == Fill.DeepFill(db, sc, e, data)
    {
      var (k, v) := data.entries[i];
      assert data.entries[i] in data.entries;
      if Fill.Routed(sc, cur, k) {
        var s := DeepSetRelation(db, sc, cur, k.s, v);
        if s.Failure? {
          return s;
        }
        cur := s.value;
      }
      i := i + 1;
    }
    r := Success(cur);
  }

  /** `deepSetRelation($name, $data)`. */
  method DeepSetRelation(db: Db, sc: Schema, e: Entity, name: string, data: Value) returns (r: Result<Entity>)
    decreases data, 7
    ensures r == Fill.DeepSetRelation(db, sc, e, name, data)
  {
    if !Truthy(data) {
      return Success(e);
    }
    var rel := RelationOf(sc, e.model, name);
    if rel.None? {
      return Failure(NoSuchRelation);
    }
    var loaded := GetRelation(e.relations, name);
    var default := if loaded.Some? then loaded.value else Null;
    var kind := rel.value.kind;
    if kind.BelongsTo? || kind.HasOne? {
      var o := ResolveRelated(db, sc, rel.value.related, data, default);
      if o.Failure? {
        return Failure(o.error);
      }
      r := Success(Cascade.Replace(e, name, Obj(o.value)));
    } else if kind.HasMany? || kind.BelongsToMany? {
      var p := ResolveMany(db, sc, rel.value.related, data);
      if p.Failure? {
        return Failure(p.error);
      }
      r := Success(Cascade.Replace(e, name, ListOf(Fill.ToMany(db, sc, rel.value.related, p.value))));
    } else {
      r := Success(e);
    }
  }

  /** The `foreach` of `deepSetRelation`: numeric elements go to `$ids`, the
      others are resolved into `$result`. */
  method ResolveMany(db: Db, sc: Schema, model: string, data: Value) returns (r: Result<(seq<Entity>, seq<Value>)>)
    decreases data, 6
    ensures r == Fill.Partition(db, sc, model, data, 0)
  {
    var es := Cascade.Elements(data);
    var resolved: seq<Entity> := [];
    var ids: seq<Value> := [];
    var i := 0;
    Fill.JoinNothing(Fill.Partition(db, sc, model, data, 0));
    while i < |es|
      invariant 0 <= i <= |es|
      invariant Fill.Partition(db, sc, model, data, 0) == Fill.Join(resolved, ids, Fill.Partition(db, sc, model, data, i))
    {
      var d := es[i].1;
      assert es[i] in es;
      Fill.JoinStep(db, sc, model, data, i, resolved, ids);
      if IsNumeric(d) {
        ids := ids + [d];
      } else {
        var o := ResolveRelated(db, sc, model, d, Null);
        if o.Failure? {
          return Failure(o.error);
        }
        resolved := resolved + [o.value];
      }
      i := i + 1;
    }
    assert Fill.Partition(db, sc, model, data, i) == Success(([], []));
    assert resolved + [] == resolved && ids + [] == ids;
    r := Success((resolved, ids));
  }

  /** `resolveRelated($relation, $data, $default)`. */
  method ResolveRelated(db: Db, sc: Schema, model: string, data: Value, default: Value) returns (r: Result<Entity>)
    decreases data, 5
    ensures r == Fill.ResolveRelated(db, sc, model, data, default)
  {
    if data.Obj? {
      return Success(data.entity);
    }
    var target: Entity;
    if default.Obj? {
      target := default.entity;
    } else if !default.Null? {
      return Failure(NotAnEntity);
    } else {
      var pk := Fill.ExplorePk(sc, model, data);
      if pk.Failure? {
        return Failure(pk.error);
      }
      if pk.value != -1 {
        var found := Find(db, sc, model, pk.value);
        if found.None? {
          return Failure(NotFound);
        }
        target := found.value;
      } else {
        target := NewInstance(sc, model);
      }
    }
    if !data.Arr? || !Truthy(data) {
      return Success(target);
    }
    var cls := ClassOf(sc, target.model);
    if cls.deep {
      r := DeepFill(db, sc, target, data);
    } else {
      r := Success(Fill.FillAttributes(target, cls.fillable, data.entries));
    }
  }
}
