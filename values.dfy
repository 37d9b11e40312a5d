/** The data the cascade engine moves around: PHP values, ordered PHP arrays and
    in-memory model instances (attributes plus loaded relations). */
module Values {

  datatype Option<T> = None | Some(value: T)

  /** Why a fill or a save stops: the PHP code throws a TypeError or calls a
      method on null in each of these situations. */
  datatype Error =
    | NotAnEntity   // a model was expected and something else was found
    | NotFound      // a lookup by primary key found no row
    | NotAnInteger  // a value could not be coerced to the `int` return type
    | NotAnArray    // `fill` was given something other than an array
    | NoSuchRelation // the model has no relation method of that name

  datatype Result<T> = Success(value: T) | Failure(error: Error)

  /** A key of a PHP array. */
  datatype Key = IntKey(i: int) | StrKey(s: string)

  /** A PHP value as far as the engine distinguishes them. `Arr` is an ordered
      PHP array (an Eloquent collection is modelled by the array it wraps);
      `Obj` is a model instance. Floats are not modelled. */
  datatype Value =
    | Null
    | Bool(b: bool)
    | Int(i: int)
    | Str(s: string)
    | Arr(entries: seq<(Key, Value)>)
    | Obj(entity: Entity)

  /** A model instance: the name of its class, its attributes, its loaded
      relations in the order they were loaded, and its `deepFillable` property. */
  datatype Entity = Entity(
    model: string,
    attrs: map<string, Value>,
    relations: seq<(string, Value)>,
    deepFillable: Value)

  /** PHP's conversion to bool; `empty($v)` is its negation. */
  predicate Truthy(v: Value) {
    match v
    case Null => false
    case Bool(b) => b
    case Int(i) => i != 0
    case Str(s) => s != "" && s != "0"
    case Arr(es) => |es| > 0
    case Obj(_) => true
  }

  predicate IsDigit(c: char) { '0' <= c <= '9' }

  predicate AllDigits(s: string) { forall i :: 0 <= i < |s| ==> IsDigit(s[i]) }

  /** An optional sign followed by at least one decimal digit: the part of
      PHP's numeric-string grammar that the model keeps. */
  predicate IsIntegerLiteral(s: string) {
    if |s| > 0 && (s[0] == '-' || s[0] == '+') then |s| > 1 && AllDigits(s[1..])
    else |s| > 0 && AllDigits(s)
  }

  function DigitsValue(s: string): (n: nat)
    requires AllDigits(s)
    ensures s == [] ==> n == 0
  {
    if s == [] then 0
    else DigitsValue(s[..|s| - 1]) * 10 + (s[|s| - 1] as int - '0' as int)
  }

  function ParseInteger(s: string): int
    requires IsIntegerLiteral(s)
  {
    if s[0] == '-' then -(DigitsValue(s[1..]) as int)
    else if s[0] == '+' then DigitsValue(s[1..])
    else DigitsValue(s)
  }

  /** `is_numeric`, restricted to integers and integer strings. */
  predicate IsNumeric(v: Value) {
    v.Int? || (v.Str? && IsIntegerLiteral(v.s))
  }

  /** The integer a numeric value stands for, as a database key comparison sees it. */
  function NumericInt(v: Value): int
    requires IsNumeric(v)
  {
    if v.Int? then v.i else ParseInteger(v.s)
  }

  /** Coercion of a value returned from a function declared `: int` (PHP 7,
      coercive typing mode). */
  function ToInt(v: Value): (r: Result<int>)
    ensures v.Int? ==> r == Success(v.i)
    ensures (v.Null? || v.Arr? || v.Obj?) ==> r == Failure(NotAnInteger)
  {
    match v
    case Int(i) => Success(i)
    case Bool(b) => Success(if b then 1 else 0)
    case Str(s) => if IsIntegerLiteral(s) then Success(ParseInteger(s)) else Failure(NotAnInteger)
    case _ => Failure(NotAnInteger)
  }

  // ---------------------------------------------------------------------------
  // Sequences

  /** `r` is `s` with some entries left out, the rest in their order. */
  ghost predicate Subsequence<T>(r: seq<T>, s: seq<T>)
    decreases |s|
  {
    if r == [] then true
    else if s == [] then false
    else if r[0] == s[0] then Subsequence(r[1..], s[1..])
    else Subsequence(r, s[1..])
  }

  lemma {:induction false} SubsequenceRefl<T>(s: seq<T>)
    ensures Subsequence(s, s)
  {
    if s != [] { SubsequenceRefl(s[1..]); }
  }

  /** Leaving out the head of `s` keeps `r` a subsequence of it. */
  lemma {:induction false} SubsequenceSkip<T>(r: seq<T>, s: seq<T>)
    requires s != [] && Subsequence(r, s[1..])
    ensures Subsequence(r, s)
    decreases |s|, 0
  {
    if r != [] && r[0] == s[0] {
      SubsequenceTail(r, s[1..]);
    }
  }

  /** Dropping the head of a subsequence keeps it a subsequence. */
  lemma {:induction false} SubsequenceTail<T>(r: seq<T>, s: seq<T>)
    requires r != [] && Subsequence(r, s)
    ensures Subsequence(r[1..], s)
    decreases |s|, 1
  {
    if r[0] != s[0] {
      SubsequenceTail(r, s[1..]);
    }
    SubsequenceSkip(r[1..], s);
  }

  // ---------------------------------------------------------------------------
  // PHP arrays

  function KeysOf(es: seq<(Key, Value)>): (ks: seq<Key>)
    ensures |ks| == |es| && forall i :: 0 <= i < |es| ==> ks[i] == es[i].0
  {
    seq(|es|, i requires 0 <= i < |es| => es[i].0)
  }

  function ValuesOf(es: seq<(Key, Value)>): (vs: seq<Value>)
    ensures |vs| == |es| && forall i :: 0 <= i < |es| ==> vs[i] == es[i].1
  {
    seq(|es|, i requires 0 <= i < |es| => es[i].1)
  }

  /** A list: the keys are exactly 0, 1, ..., n-1 in this order (the negation
      of `Arr::isAssoc`). */
  predicate IsList(es: seq<(Key, Value)>) {
    forall i :: 0 <= i < |es| ==> es[i].0 == IntKey(i)
  }

  /** The array `[v0, v1, ...]` built by appending with `$a[] = v`. */
  function ListOf(vs: seq<Value>): (r: Value)
    ensures r.Arr? && IsList(r.entries) && ValuesOf(r.entries) == vs
  {
    Arr(seq(|vs|, i requires 0 <= i < |vs| => (IntKey(i), vs[i])))
  }

  /** `$a[$k] ?? null`: the value at the first entry with key `k`, or null. */
  function Lookup(es: seq<(Key, Value)>, k: Key): (v: Value)
    ensures k !in KeysOf(es) ==> v == Null
    ensures |es| > 0 && es[0].0 == k ==> v == es[0].1
  {
    if es == [] then Null
    else if es[0].0 == k then es[0].1
    else Lookup(es[1..], k)
  }

  // ---------------------------------------------------------------------------
  // Entities

  /** `$model->$name` for an attribute: its value, or null when unset. */
  function Attr(e: Entity, a: string): Value {
    if a in e.attrs then e.attrs[a] else Null
  }

  function SetAttr(e: Entity, a: string, v: Value): (r: Entity)
    ensures r.model == e.model && r.relations == e.relations && r.deepFillable == e.deepFillable
    ensures r.attrs == e.attrs[a := v]
  {
    e.(attrs := e.attrs[a := v])
  }

  function Names(rels: seq<(string, Value)>): (ns: seq<string>)
    ensures |ns| == |rels| && forall i :: 0 <= i < |rels| ==> ns[i] == rels[i].0
  {
    seq(|rels|, i requires 0 <= i < |rels| => rels[i].0)
  }

  /** `getRelation($name)` / `relationLoaded($name)`. */
  function GetRelation(rels: seq<(string, Value)>, name: string): (r: Option<Value>)
    ensures r.None? <==> name !in Names(rels)
    ensures r.Some? ==> (name, r.value) in rels
  {
    if rels == [] then None
    else if rels[0].0 == name then Some(rels[0].1)
    else GetRelation(rels[1..], name)
  }

  /** `setRelation($name, $value)`: a loaded relation of that name is replaced
      where it stands, otherwise the relation is appended. */
  function SetRelation(rels: seq<(string, Value)>, name: string, v: Value): (r: seq<(string, Value)>)
    ensures Names(r) == if name in Names(rels) then Names(rels) else Names(rels) + [name]
    ensures GetRelation(r, name) == Some(v)
    ensures forall n :: n != name ==> GetRelation(r, n) == GetRelation(rels, n)
    ensures forall x :: x in r ==> x == (name, v) || x in rels
    ensures forall x :: x in rels && x.0 != name ==> x in r
  {
    if name in Names(rels) then
      var r := seq(|rels|, i requires 0 <= i < |rels| => if rels[i].0 == name then (name, v) else rels[i]);
      SetRelationGet(rels, name, v, r);
      r
    else
      AppendGet(rels, name, v);
      rels + [(name, v)]
  }

  lemma {:induction false} SetRelationGet(rels: seq<(string, Value)>, name: string, v: Value, r: seq<(string, Value)>)
    requires |r| == |rels|
    requires forall i :: 0 <= i < |rels| ==> r[i] == if rels[i].0 == name then (name, v) else rels[i]
    ensures name in Names(rels) ==> GetRelation(r, name) == Some(v)
    ensures forall n :: n != name ==> GetRelation(r, n) == GetRelation(rels, n)
  {
    if rels != [] {
      SetRelationGet(rels[1..], name, v, r[1..]);
      assert Names(rels) == [rels[0].0] + Names(rels[1..]);
    }
  }

  lemma {:induction false} AppendGet(rels: seq<(string, Value)>, name: string, v: Value)
    requires name !in Names(rels)
    ensures GetRelation(rels + [(name, v)], name) == Some(v)
    ensures forall n :: n != name ==> GetRelation(rels + [(name, v)], n) == GetRelation(rels, n)
  {
    if rels != [] {
      assert Names(rels) == [rels[0].0] + Names(rels[1..]);
      assert (rels + [(name, v)])[1..] == rels[1..] + [(name, v)];
      AppendGet(rels[1..], name, v);
    }
  }

  /** No relation name is loaded twice (PHP array keys are unique). */
  predicate UniqueNames(rels: seq<(string, Value)>) {
    forall i, j :: 0 <= i < j < |rels| ==> rels[i].0 != rels[j].0
  }
}
