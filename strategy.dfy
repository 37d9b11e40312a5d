/** Save strategies: which loaded relations a save cascades into. */
module Strategy {
  import opened Values

  /** `false` stops the cascade; a map names the relations to cascade into,
      each with the strategy for the next level; the empty map means all. */
  datatype Strategy = False | Map(m: map<string, Strategy>)

  const All := Map(map[])

  /** `array_intersect_key($relations, $keys)`. */
  function IntersectKeys(rels: seq<(string, Value)>, keys: set<string>): (r: seq<(string, Value)>)
    ensures forall x :: x in r <==> x in rels && x.0 in keys
    ensures Subsequence(r, rels)
  {
    if rels == [] then []
    else if rels[0].0 in keys then [rels[0]] + IntersectKeys(rels[1..], keys)
    else IntersectKeys(rels[1..], keys)
  }

  /** `strategyRelations`: the loaded relations a save cascades into. */
  function StrategyRelations(rels: seq<(string, Value)>, s: Strategy): (r: seq<(string, Value)>)
    ensures s.False? ==> r == []
    ensures s == All ==> r == rels
    ensures forall x :: x in r <==> x in rels && s.Map? && (s.m == map[] || x.0 in s.m)
    ensures Subsequence(r, rels)
  {
    match s
    case False => []
    case Map(m) => if m == map[] then SubsequenceRefl(rels); rels else IntersectKeys(rels, m.Keys)
  }

  /** `$strategy[$name] ?? []`: the strategy a cascaded relation is saved with. */
  function Nested(s: Strategy, name: string): (r: Strategy)
    ensures s.Map? && name in s.m ==> r == s.m[name]
    ensures !(s.Map? && name in s.m) ==> r == All
  {
    if s.Map? && name in s.m then s.m[name] else All
  }
}
