/** What the engine knows about model classes: the relations a class declares
    (the relation methods of an Eloquent model), its primary key, its fillable
    attributes and whether it uses the deep-relation behaviour. */
module Schema {
  import opened Values

  /** The kind of a declared relation with the key names it needs. For
      many-to-many the pivot key names are qualified (`table.column`), as
      `getQualifiedForeignPivotKeyName` returns them. */
  datatype RelationKind =
    | BelongsTo(foreignKey: string, ownerKey: string)
    | HasOne(foreignKey: string, localKey: string)
    | HasMany(foreignKey: string, localKey: string)
    | BelongsToMany(table: string, qualifiedForeignPivotKey: string, qualifiedRelatedPivotKey: string)
    | OtherKind

  /** A relation method: its kind and the class of the related model. */
  datatype Relation = Relation(kind: RelationKind, related: string)

  datatype ModelClass = ModelClass(
    keyName: string,
    fillable: set<string>,
    relations: map<string, Relation>,
    deep: bool,            // the class uses the deep-relation trait
    deepFillable: Value)   // initial value of the `deepFillable` property

  type Schema = map<string, ModelClass>

  /** A class the schema does not describe: a plain model keyed by `id`, with
      no relation methods and nothing fillable. */
  const PlainClass := ModelClass("id", {}, map[], false, Arr([]))

  function ClassOf(sc: Schema, model: string): ModelClass {
    if model in sc then sc[model] else PlainClass
  }

  /** `getKey()`. */
  function KeyOf(sc: Schema, e: Entity): Value {
    Attr(e, ClassOf(sc, e.model).keyName)
  }

  /** `$object->$name()` when the method exists. */
  function RelationOf(sc: Schema, model: string, name: string): Option<Relation> {
    var cls := ClassOf(sc, model);
    if name in cls.relations then Some(cls.relations[name]) else None
  }

  /** `new $class`: no attributes, nothing loaded. */
  function NewInstance(sc: Schema, model: string): (e: Entity)
    ensures e.model == model && e.attrs == map[] && e.relations == []
  {
    Entity(model, map[], [], ClassOf(sc, model).deepFillable)
  }

  predicate IsBelongsTo(sc: Schema, model: string, name: string) {
    var r := RelationOf(sc, model, name);
    r.Some? && r.value.kind.BelongsTo?
  }

  /** The attributes the class's own belongs-to relations write. */
  function BelongsToKeys(cls: ModelClass): set<string> {
    set n | n in cls.relations && cls.relations[n].kind.BelongsTo? :: cls.relations[n].kind.foreignKey
  }
}
