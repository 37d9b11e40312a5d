# Deep relations for Eloquent models, in Dafny

This project models the relation-cascade engine of the `TDeepRelation` trait
(`src/TDeepRelation.php`). The trait gives an Eloquent model two operations:

- **`deepSave($strategy)`** saves a model together with its loaded relations.
  The save strategy chooses the relations: `false` means none, an empty array
  means all, and an array names each relation with the strategy for the next
  level. Belongs-to parents are saved before the model. Each parent's owner key
  is then copied into the model's foreign key. Once the model has its key,
  has-one and has-many children get that key stamped into their foreign key
  and are saved. A many-to-many relation has its pivot rows for this owner
  wiped and rebuilt: one row per saved truthy element.
- **`deepFill($data)`** fills a model from a nested array. Fillable keys become
  attributes. Every other key that names a relation method, and that the
  model's `deepFillable` policy allows, goes to `deepSetRelation`. For a to-one
  relation, `deepSetRelation` resolves one related model. It tries, in order:
  the model given, the loaded model, a lookup by the primary key found in the
  data, and a fresh instance. For a to-many relation, it resolves the
  non-numeric elements one by one and loads the numeric ones in one batch by key.

The model has these parts:

- `values.dfy`: PHP values (`Value`), arrays as ordered key/value sequences,
  entities (class name, attributes, loaded relations in load order, the
  `deepFillable` property), PHP truthiness, `is_numeric` and the `int` return
  coercion.
- `schema.dfy`: the declared classes. Each class has its primary key name, its
  fillable set and its relation methods. A relation method has a kind
  (belongs-to, has-one, has-many, many-to-many, other) and key names.
- `strategy.dfy`: save strategies, `strategyRelations` and the nested strategy.
- `persistence.dfy`: the database. `Db` holds the rows by class and key, the
  pivot rows, the auto-increment counter and a log of writes. `Store` is the
  same state as a mutable object whose methods do one write each.
- `cascade.dfy`, `cascade_facts.dfy`, `cascade_links.dfy`,
  `cascade_children.dfy`: the save cascade as functions from a `Db` to an
  `Outcome` (new `Db`, result), and what it guarantees.
- `cascade_success.dfy`: when the save cascade succeeds. It fails only on a
  has-many element or a truthy many-to-many element that is not a model.
- `save.dfy`: the save cascade as methods over a `Store`, with the loops of the
  source. Each is proved to reach the state and result its function specifies.
- `fill.dfy`, `fill_facts.dfy`: the fill half as functions of a read-only
  database, and its properties.
- `filling.dfy`: the fill half as methods with the loops of the source, proved
  equal to the functions.

A PHP error is modelled as a `Failure` result. Such errors are a `TypeError`
from a typed parameter or return, a call on `null`, or a missing relation
method. Entities are values: an operation that mutates a model in PHP returns
the updated entity.

Where the comments and the code disagree, the model follows the code:

- The property comment at line 33 says a `null` `deepFillable` stops relation
  filling. The condition at src/TDeepRelation.php:310 treats `null` like the
  empty array, so every
  relation is allowed.
- The condition at src/TDeepRelation.php:310 also sends `true` down the `isset` branch. `isset` on an
  offset of a scalar is false, so `true` allows no relation, just like `false`.
  A list made only of values that cannot be array keys flips to an empty array,
  so it allows every relation.
- The doc comment at line 40 shows dotted nested keys (`'relation1.deeperRelation'`).
  Such keys never match, because line 85 compares plain relation names.
- A batch of ids always goes through `whereIn` (lines 354 and 394-397), even a
  single id, because `$ids` is always an array.

## Model

| member | source | states |
|---|---|---|
| Strategy.StrategyRelations | src/TDeepRelation.php:76-86 | `false` gives no relations; the empty strategy gives every loaded relation; otherwise exactly the loaded relations whose names are strategy keys, with their values, in load order |
| Strategy.Nested | src/TDeepRelation.php:111 | a cascaded relation gets `strategy[name]`, or the empty strategy when that key is absent |
| CascadeFacts.NestedFalseIsPlainSave | src/TDeepRelation.php:49-64 | a model saved with a nested strategy of `false` is the result of one plain `save()` of it, and keeps its loaded relations as they were |
| CascadeFacts.PlainSave | src/TDeepRelation.php:52-64 | with the strategy `false`, or for a class without the trait, saving a model is exactly one `save()`: the key, the row and the log entry, and nothing cascaded |
| CascadeFacts.UnnamedNotCascaded | src/TDeepRelation.php:85 | a relation that a non-empty strategy does not name is not cascaded into |
| Cascade.SaveModel | src/TDeepRelation.php:167-170 | saving a related model, deeply or plainly, keeps its class, relation names and every attribute but the key and the belongs-to foreign keys, gives it an integer key, and logs its save after the earlier writes |
| Cascade.DeepSave | src/TDeepRelation.php:49-66 | `deepSave` as pre-save, save, post-save: the saved model keeps its class, relation names and every attribute but the key and the belongs-to foreign keys, gets an integer key, and its save is logged; the log only grows |
| Cascade.SaveAndAfter | src/TDeepRelation.php:57-64 | the `save()` and the `saved` hook that runs the post-save: the saved model keeps its class, relation names and every attribute but the key and the belongs-to foreign keys, gets an integer key, and is logged after the earlier writes; the log only grows |
| Saving.SaveModel | src/TDeepRelation.php:167-170 | the method leaves the store and returns the result that `Cascade.SaveModel` specifies |
| Saving.DeepSave | src/TDeepRelation.php:49-66 | the method leaves the store and returns the result that `Cascade.DeepSave` specifies |
| Cascade.BeforeSteps | src/TDeepRelation.php:96-117 | the pre-save loop keeps the class, the relation names, every relation that is not belongs-to and every attribute except the belongs-to foreign keys |
| Saving.DeepBeforeSave | src/TDeepRelation.php:96-117 | the `foreach` loop leaves the store and returns the result that `Cascade.BeforeSteps` specifies |
| Cascade.SaveBelongsTo | src/TDeepRelation.php:165-175 | the parent is saved and stays loaded, and the root's foreign key holds the saved parent's owner key; nothing else of the root changes |
| Saving.SaveBelongsTo | src/TDeepRelation.php:165-175 | the method leaves the store and returns the result that `Cascade.SaveBelongsTo` specifies |
| CascadeLinks.BelongsToFrame | src/TDeepRelation.php:165-175 | `saveBelongsTo` changes only the relation it saves and the one foreign key |
| CascadeLinks.BeforeRelationsFrame | src/TDeepRelation.php:102-114 | the pre-save changes only the belongs-to relations it visits |
| CascadeLinks.BeforeAttrsFrame | src/TDeepRelation.php:102-114 | the pre-save changes no attribute other than the foreign keys of the belongs-to relations it visits |
| CascadeLinks.ParentsLinked | src/TDeepRelation.php:102-114 | after the pre-save, every belongs-to parent it visited is loaded as the result of saving that parent with the strategy nested under its name (`strategy[name] ?? []`), logged after the earlier writes, and the root's foreign key equals that parent's owner key |
| CascadeLinks.HeadLinked | src/TDeepRelation.php:111-113 | one `saveBelongsTo` with the nested strategy leaves the parent saved with that strategy and loaded, and its owner key in the root's foreign key |
| CascadeChildren.DeepSaveParents | src/TDeepRelation.php:49-66 | after `deepSave`, every belongs-to parent it cascades into is saved with the strategy nested under its name, before the root, stays loaded, and its owner key sits in the root's foreign key |
| Cascade.AfterSteps | src/TDeepRelation.php:125-156 | the post-save loop keeps the class, the attributes and the relation names, and the log only grows |
| Cascade.AfterStep | src/TDeepRelation.php:134-153 | one pass of the loop dispatches on the relation kind; it keeps the class, the attributes and the relation names |
| Saving.DeepAfterSave | src/TDeepRelation.php:125-156 | the `foreach` loop leaves the store and returns the result that `Cascade.AfterSteps` specifies |
| Saving.AfterStep | src/TDeepRelation.php:134-153 | the `switch` leaves the store and returns the result that `Cascade.AfterStep` specifies |
| CascadeChildren.AfterStepLinked | src/TDeepRelation.php:134-153 | each child is saved with the strategy nested under the relation's name (`strategy[name] ?? []`): a has-one entity child with the root's key stamped in and reloaded; has-many children key for key; a many-to-many relation holds its saved elements; a has-one value that is not an entity, a belongs-to relation or any other kind is left as it was; no other relation changes |
| CascadeChildren.HasOneLinked | src/TDeepRelation.php:138-141 | a has-one entity value, with the root's local key in its foreign key, is saved with the nested strategy after the earlier writes and reloaded; no other relation changes |
| CascadeChildren.HasManyLinked | src/TDeepRelation.php:143-145 | a has-many relation becomes an array with the input's keys, each holding its child saved with the nested strategy and linked to the root; no other relation changes |
| CascadeChildren.ManyManyLinked | src/TDeepRelation.php:147-149 | a many-to-many relation becomes a list of the truthy elements, each saved with the nested strategy; no other relation changes |
| CascadeChildren.AfterFrame | src/TDeepRelation.php:131-154 | the post-save leaves every relation it does not visit, and every belongs-to relation, as it was |
| CascadeChildren.ChildrenLinked | src/TDeepRelation.php:131-154 | after the whole post-save loop, each visited relation of a distinct name is linked to the saved root as `AfterStepLinked` states |
| CascadeChildren.DeepSaveChildren | src/TDeepRelation.php:49-66 | after `deepSave`, every non-belongs-to relation it cascades into is linked to the saved root with its children saved with the nested strategy, and every child it saves (a has-one child, each has-many child, each many-to-many element) is saved after the root |
| CascadeChildren.DeepSaveNestedFalse | src/TDeepRelation.php:49-66 | after `deepSave`, every relation the strategy maps to `false` holds models saved by one plain `save()` with their loaded relations unchanged: the parent; the has-one child and each has-many child with the root's key stamped in; each truthy many-to-many element |
| CascadeChildren.ChildPlain | src/TDeepRelation.php:134-153 | a relation the post-save visits with a nested `false` holds children each saved by one plain `save()` |
| Cascade.SaveHasOne | src/TDeepRelation.php:185-189 | the child is saved with the root's local key stamped into its foreign key, and the saved child replaces the loaded relation; nothing else changes |
| Saving.SaveHasOne | src/TDeepRelation.php:185-189 | the method leaves the store and returns the result that `Cascade.SaveHasOne` specifies |
| Cascade.SaveHasOneMany | src/TDeepRelation.php:200-215 | the child gets the parent key in its foreign key before its save, is saved (and logged), and keeps that key when its own save does not rewrite that attribute |
| Saving.SaveHasOneMany | src/TDeepRelation.php:200-215 | the method leaves the store and returns the result that `Cascade.SaveHasOneMany` specifies |
| CascadeFacts.HasOneManySaved | src/TDeepRelation.php:200-215 | the child, with the parent key stamped in, is saved by the save of a related model with the strategy passed in, after the earlier writes |
| Cascade.SaveHasMany | src/TDeepRelation.php:225-233 | only the loaded relation `name` is replaced |
| Saving.SaveHasMany | src/TDeepRelation.php:225-233 | the `foreach` loop leaves the store and returns the result that `Cascade.SaveHasMany` specifies |
| CascadeFacts.HasManySaved | src/TDeepRelation.php:228-231 | the loop saves every child in order, each with the root's key stamped in and the nested strategy, under the key it had |
| CascadeFacts.HasManyReplaced | src/TDeepRelation.php:225-233 | the loaded relation becomes an array with the input's keys in the input's order, each holding the stamped child saved with the nested strategy |
| Cascade.ColumnSuffixIsLast | src/TDeepRelation.php:249-253 | the pivot column is the text after the last `.` of the qualified name, or the whole name when it has no dot |
| Cascade.FilterTruthy | src/TDeepRelation.php:261 | `array_filter` keeps exactly the truthy entries, in order, with their keys |
| Cascade.SaveManyMany | src/TDeepRelation.php:243-284 | only the loaded relation `name` is replaced, and the log only grows |
| Saving.SaveManyMany | src/TDeepRelation.php:243-284 | the delete, the loop and the insert leave the store and return the result that `Cascade.SaveManyMany` specifies |
| Saving.ManyManyLoop | src/TDeepRelation.php:269-278 | the `foreach` that saves the elements and collects the pivot rows leaves the store and returns what `Cascade.ManyManySteps` specifies |
| CascadeFacts.ManyManySaved | src/TDeepRelation.php:269-278 | the loop saves every element in order with the nested strategy and builds the pivot row `(owner key, element key)` for each saved element |
| CascadeFacts.PivotRows | src/TDeepRelation.php:277 | one pivot row per saved element, pairing the owner's key with that element's key |
| CascadeFacts.ManyManyPlainPivots | src/TDeepRelation.php:269-278 | elements saved without a cascade of their own write no pivot rows |
| CascadeFacts.ManyManyEmpty | src/TDeepRelation.php:257-267 | with no truthy element, only the owner's rows are deleted, nothing is inserted, and the relation becomes an empty list |
| CascadeFacts.ManyManyLoaded | src/TDeepRelation.php:269-283 | on success the relation is a list of the truthy elements, each saved with the nested strategy, in order |
| CascadeFacts.ManyManyRebuilt | src/TDeepRelation.php:257-283 | the pivot rows afterwards are the other owners' rows, unchanged, followed by one `(owner key, element key)` row per saved truthy element, in order |
| CascadeSuccess.SaveSucceeds | src/TDeepRelation.php:49-66 | a save succeeds, from any database state, when its tree is `Saveable`: every has-many element and every truthy many-to-many element of a relation the strategy selects is a model, down the tree with the nested strategy |
| CascadeSuccess.DeepSaveSucceeds | src/TDeepRelation.php:49-66 | `deepSave` of a `Saveable` model succeeds |
| CascadeSuccess.SaveAndAfterSucceeds | src/TDeepRelation.php:57-64 | after the pre-save, the save of the root and the post-save of a `Saveable` tree succeed |
| CascadeSuccess.BeforeSucceeds | src/TDeepRelation.php:96-116 | the pre-save loop succeeds when every loaded parent it visits is `Saveable` with its nested strategy |
| CascadeSuccess.AfterSucceeds | src/TDeepRelation.php:125-155 | the post-save loop succeeds when every child relation it visits is `Saveable`; belongs-to relations are skipped |
| CascadeSuccess.AfterStepSucceeds | src/TDeepRelation.php:134-153 | one visited relation is saved without error when its children are `Saveable` |
| CascadeSuccess.HasManySucceeds | src/TDeepRelation.php:225-233 | the `saveHasMany` loop succeeds when every element is a `Saveable` model |
| CascadeSuccess.ManyManySucceeds | src/TDeepRelation.php:269-279 | the `saveManyMany` loop succeeds when every truthy element is a `Saveable` model |
| CascadeSuccess.ToOneSucceeds | src/TDeepRelation.php:165-214 | `saveBelongsTo`, `saveHasOneManyRelation` and `saveHasOne` succeed exactly when the save of their model does |
| CascadeSuccess.SaveableStamped | src/TDeepRelation.php:205-207 | stamping the parent key into a child changes neither whether it is `Saveable` nor its size |
| CascadeSuccess.HasManyFails | src/TDeepRelation.php:200-233 | the `saveHasMany` loop fails when some element is not a model (the typed parameter of `saveHasOneManyRelation`) |
| CascadeSuccess.ManyManyFails | src/TDeepRelation.php:262-279 | the `saveManyMany` loop fails when some truthy element is not a model |
| Persistence.Persist | src/TDeepRelation.php:64 | `save()` gives the model an integer key, keeps an existing one, writes its row and logs the save |
| Persistence.WithoutOwner | src/TDeepRelation.php:257-259 | exactly the rows of other tables or other owners remain, never more rows than before |
| Persistence.WithoutOwnerKeeps | src/TDeepRelation.php:257-259 | the delete keeps the other rows in their order, each as often as it occurred, and drops every row of the owner |
| Persistence.Store.Save | src/TDeepRelation.php:64 | the object's state becomes the `Persist` of its old state |
| Persistence.Store.DeleteWhere | src/TDeepRelation.php:257-259 | the object's state becomes the old one with the owner's rows deleted and the delete logged |
| Persistence.Store.Insert | src/TDeepRelation.php:280-281 | the object's state becomes the old one with the rows appended and the insert logged |
| Persistence.Find | src/TDeepRelation.php:394-395 | `find` gives a model exactly when the row exists, with that row's attributes and nothing loaded |
| Persistence.FoundKeys | src/TDeepRelation.php:396-397 | the keys `whereIn` finds: exactly the keys asked for that have a row, each once |
| Persistence.FoundKeysInOrder | src/TDeepRelation.php:396-397 | the found keys come in the order the keys first occur in the request |
| Persistence.FindMany | src/TDeepRelation.php:396-397 | `whereIn()->get()` gives, for each found key in order, the model `find` gives for it: every model is the row of a key asked for, every key asked for that has a row gives its model, each of the related class with nothing loaded |
| Fill.FillAttributes | src/TDeepRelation.php:297 | `fill` assigns each fillable attribute the data names its value from the data, and changes no other attribute, relation or class |
| Fill.DeepFill | src/TDeepRelation.php:295-316 | data that is not an array is an error; otherwise the attributes become those `fill` gives, the class and policy stay, and no relation changes unless a routed key names it |
| Fill.FillRelations | src/TDeepRelation.php:306-313 | the loop keeps the class, policy and attributes and changes only relations that the remaining routed keys name |
| Filling.DeepFill | src/TDeepRelation.php:295-316 | the method with its `foreach` returns what `Fill.DeepFill` specifies |
| Fill.DeepSetRelation | src/TDeepRelation.php:322-362 | empty data changes nothing; a missing relation method is an error; otherwise only relation `name` changes: a to-one relation gets a model, a to-many relation a list of models no longer than the data |
| Filling.DeepSetRelation | src/TDeepRelation.php:322-362 | the method returns what `Fill.DeepSetRelation` specifies |
| Fill.Partition | src/TDeepRelation.php:345-351 | on success the loop keeps as `$ids` exactly the numeric elements, in order, and the models and ids together are as many as the elements |
| Fill.Numerics | src/TDeepRelation.php:347-348 | exactly the elements `is_numeric` accepts, never more than the input |
| Fill.NonNumerics | src/TDeepRelation.php:349-350 | exactly the elements `is_numeric` rejects, never more than the input |
| Fill.NumericsKeep | src/TDeepRelation.php:346-351 | each of the two keeps its elements in their order and as often as they occur |
| Fill.NumericsSplit | src/TDeepRelation.php:346-351 | every element goes to exactly one of the two |
| Filling.ResolveMany | src/TDeepRelation.php:345-351 | the `foreach` that fills `$ids` and `$result` returns what `Fill.Partition` specifies |
| Fill.ToMany | src/TDeepRelation.php:353-359 | the loaded list holds the resolved models first, in order, then at most one model per id; every value is a model |
| Fill.ToManyFound | src/TDeepRelation.php:353-359 | after the resolved models come exactly the models `whereIn` finds for the ids: one per found key, in order, each the model `find` gives |
| Fill.ExplorePk | src/TDeepRelation.php:369-379 | an int is the key; a model gives its coerced key; an array gives its primary-key entry, coerced, or -1 when the entry is missing or null; anything else gives -1 |
| Fill.ResolveRelated | src/TDeepRelation.php:414-445 | a model is returned unchanged; a loaded collection is an error; otherwise the result is of the loaded model's class or of the related class |
| Filling.ResolveRelated | src/TDeepRelation.php:414-445 | the method returns what `Fill.ResolveRelated` specifies |
| FillFacts.DeepFillAssigns | src/TDeepRelation.php:297 | every fillable key of the data ends up as that attribute with that value |
| FillFacts.DeepFillKeeps | src/TDeepRelation.php:297 | an attribute the data does not fill keeps its value |
| FillFacts.DeepFillLoads | src/TDeepRelation.php:306-313 | every routed key ends up loaded as `deepSetRelation` loads it (`LoadsAs`): a to-one relation holds the model `resolveRelated` gives for the data with the loaded model as default; a to-many relation holds one model per non-numeric element, resolved with no default, in order, followed by the models found by the numeric elements; another kind keeps what was loaded |
| FillFacts.FillRelationsLoads | src/TDeepRelation.php:306-313 | the same `LoadsAs`, for the loop from any position |
| FillFacts.DeepFillFrame | src/TDeepRelation.php:306-313 | a relation no routed key names is left as it was |
| FillFacts.ListedPolicy | src/TDeepRelation.php:300-310 | a `deepFillable` list of names allows exactly the names it lists |
| FillFacts.PolicyExtremes | src/TDeepRelation.php:300-310 | `false` and `true` allow no relation; `null` and the empty array allow all |
| FillFacts.ResolveNotFound | src/TDeepRelation.php:424-441 | a primary key that names no row is an error |
| FillFacts.ResolveFresh | src/TDeepRelation.php:426-443 | with no key in the data, a fresh instance of the related class is made and returned as it is unless the data is a non-empty array, which is then filled into it (`FilledInto`) |
| FillFacts.ResolveFound | src/TDeepRelation.php:426-443 | a model found by key keeps its stored attributes except those the data fills |
| FillFacts.ResolveFoundFills | src/TDeepRelation.php:426-443 | a key that names a row gives that row's model without error when the data is not a non-empty array, and otherwise that model with the data filled in (`FilledInto`) |
| FillFacts.ResolveDefault | src/TDeepRelation.php:422-443 | a loaded model is used in place of a lookup; it keeps its class and every attribute the data does not fill |
| FillFacts.ResolveDefaultFills | src/TDeepRelation.php:422-443 | a loaded model is returned without error when the data is not a non-empty array, and otherwise with the data filled in (`FilledInto`) |
| FillFacts.FilledAssigns | src/TDeepRelation.php:436-442 | filling non-empty array data into the chosen model assigns every fillable attribute the data names its value, keeps the class, and cannot fail for a class without the trait |
| FillFacts.ResolveAssigns | src/TDeepRelation.php:414-444 | for array data, every fillable attribute of the chosen model's class that the data names holds that value in the model `resolveRelated` returns |
| FillFacts.ResolveDefaultNoLookup | src/TDeepRelation.php:422-424 | with a loaded model of a class without the trait, the database is not read at all |
| FillFacts.DeepSetRelationLoads | src/TDeepRelation.php:322-362 | for non-empty data on an existing relation, `deepSetRelation` succeeds exactly when every model it resolves resolves, and on success loads what `LoadsAs` says |
| FillFacts.ToManyLoads | src/TDeepRelation.php:339-359 | a to-many relation succeeds exactly when every non-numeric element resolves, and then holds those models in order followed by the models found by the numeric elements |
| FillFacts.ListLoaded | src/TDeepRelation.php:353-359 | the collection built from the loop's models and ids is the one `ToManyLoaded` describes |
| FillFacts.PartitionResolves | src/TDeepRelation.php:345-351 | the loop fails exactly when a non-numeric element fails to resolve, and otherwise holds one model per non-numeric element, resolved with no default, in order |
| FillFacts.PartitionStep | src/TDeepRelation.php:346-350 | a numeric element adds no model; any other element fails the loop when it does not resolve and otherwise puts its model in front of those of the rest |
| FillFacts.ToManyFoundByKeys | src/TDeepRelation.php:353-359 | a to-many relation given only keys holds exactly the models one `whereIn` finds for them |

## Left out

- Event plumbing: `deepSave` registers class-wide `saving` and `saved`
  listeners (lines 53-60), and these pile up across calls. The model runs one
  pre-save, the save, and one post-save per call, with the strategy of that call.
- The database is an in-memory `Db`. There is no SQL, no connection and no
  transaction, and the delete-then-insert of pivot rows is not atomic. `save()`
  writes the row under the model's integer key, or inserts it under the next
  counter value. `whereIn()->get()` returns one model per distinct key, in the
  order the keys first occur; SQL guarantees no order.
- Eloquent's `fill` internals are out: guarded attributes, casts and mutators,
  the `MassAssignmentException` of a class with an empty `$fillable`, and
  `removeTableFromKey`. `fill` is modelled as assigning the attributes whose
  key is a fillable name.
- PHP array keys are not normalised: a numeric string key is not turned into an
  integer key. This matters for `array_diff_key`, `array_flip` and `isset`.
- `method_exists` is modelled as the declared relation map and the has-trait
  flag. A non-relation public method named by a fill key is not modelled.
- `is_numeric` covers integers and integer strings only. Floats, exponents and
  leading or trailing blanks are out, and the `int` coercion rejects every
  non-integer string. Floating-point values are not modelled.
- A `foreach` over an object, or an object as the `deepFillable` policy, is not
  modelled: an object visits no entries, and an object policy allows nothing.
- Aliasing is not modelled: entities are values, so one PHP object reachable
  from two places is two entities here. What a failed cascade leaves in the
  in-memory models is not modelled either: a failure returns only the error
  and the database as written so far.
- Dirty tracking and `getAttribute` shadowing are out: a relation name never
  shadows an attribute.
- A save strategy that is neither `false` nor an array is not modelled.
- CascadeSuccess.SaveSucceeds: states that a `Saveable` tree is enough for a
  save to succeed, not that every other tree fails. That a non-model element
  aborts the save is stated for the has-many and many-to-many loops
  (`HasManyFails`, `ManyManyFails`), not for the whole tree, because the
  pre-save contract does not pin which loaded relations the post-save visits
  position by position.
- Cascade.SaveHasOneMany: the stamped foreign key is stated to survive the
  child's save only when that attribute is neither the child's primary key nor
  one of its own belongs-to foreign keys (`StampKept`), because the child's
  pre-save may rewrite those.
- CascadeLinks.ParentsLinked: it requires distinct relation names and distinct
  belongs-to foreign keys, because otherwise a later parent overwrites an
  earlier parent's foreign key.
- CascadeChildren.DeepSaveParents: it also requires that no belongs-to foreign key is the primary key
  (`WellFormedSave`), because `save()` may overwrite
  that attribute.
- CascadeChildren.DeepSaveChildren: it states the links for the
  non-belongs-to relations only. The belongs-to relations are covered by
  `DeepSaveParents`.
- CascadeChildren.DeepSaveNestedFalse: it requires `WellFormedSave`, like
  `DeepSaveParents`, because it reads the parents' saves off that lemma.
- CascadeFacts.ManyManyRebuilt: the exact pivot rows are stated only when no
  element cascades on its own save (`PlainElement`), because a cascading
  element may write pivot rows of its own.
- Fill.ResolveRelated: a non-null loaded value that is not a model is treated
  as a collection: it is truthy and not a model, so it is an error.
