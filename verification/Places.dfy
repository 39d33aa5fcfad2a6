/** Places in a JSON document, and what stands at them. */
module Places {
  import opened JsonValue
  import opened Wrappers

  datatype Hop = Key(key: string) | Index(index: nat)
  type Place = seq<Hop>

  /** What stands at a place. */
  function At(v: Json, place: Place): Option<Json> {
    if place == [] then Some(v)
    else
      match place[0]
      case Key(k) => if v.Has(k) then At(v.fields[k], place[1..]) else None
      case Index(i) => if v.Arr? && i < |v.items| then At(v.items[i], place[1..]) else None
  }

  /** The same kind of value, and the same value where it holds no others. */
  predicate SameShape(a: Json, b: Json) {
    if a.Obj? then b.Obj? else if a.Arr? then b.Arr? && |b.items| == |a.items| else b == a
  }

  lemma AtKey(v: Json, k: string, rest: Place)
    requires v.Has(k)
    ensures At(v, [Key(k)] + rest) == At(v.fields[k], rest)
  {
    assert ([Key(k)] + rest)[1..] == rest;
  }

  lemma AtIndex(v: Json, i: nat, rest: Place)
    requires v.Arr? && i < |v.items|
    ensures At(v, [Index(i)] + rest) == At(v.items[i], rest)
  {
    assert ([Index(i)] + rest)[1..] == rest;
  }
}
