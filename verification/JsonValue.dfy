/** JSON documents. An object is a map and an array a sequence, so equality is
  * equality of documents whatever the order of the keys. */
module JsonValue {

  /** `Num` is an integer number, `Fraction` any other. */
  datatype Json =
    | Null
    | Bool(b: bool)
    | Num(n: int)
    | Fraction(x: real)
    | Str(s: string)
    | Arr(items: seq<Json>)
    | Obj(fields: map<string, Json>)
  {
    predicate Has(key: string) {
      Obj? && key in fields
    }

    function Get(key: string): Json
      requires Has(key)
    {
      fields[key]
    }

    /** The text at `key`, or `otherwise` when there is none. */
    function TextOr(key: string, otherwise: string): string {
      if Has(key) && fields[key].Str? then fields[key].s else otherwise
    }
  }

  /** `v` with every entry of the array at `key` replaced by what `f` makes of it. */
  ghost function EachItem(v: Json, key: string, f: Json -> Json): Json {
    if v.Has(key) && v.fields[key].Arr?
    then Obj(v.fields[key := Arr(Mapped(v.fields[key].items, f))])
    else v
  }

  ghost function Mapped(items: seq<Json>, f: Json -> Json): seq<Json> {
    seq(|items|, i requires 0 <= i < |items| => f(items[i]))
  }

  // ---------- Documents compared field by field ----------

  /** `b` has at `k` what `a` has there. */
  ghost predicate SameField(a: Json, b: Json, k: string) {
    a.Has(k) == b.Has(k) && (a.Has(k) ==> b.fields[k] == a.fields[k])
  }

  /** The list at `key`, item by item; what is no list stays. */
  ghost predicate ListBecomes(v: Json, w: Json, key: string, becomes: (Json, Json) -> bool) {
    if v.Has(key) && v.fields[key].Arr? then
      && w.Has(key) && w.fields[key].Arr?
      && var a, b := v.fields[key].items, w.fields[key].items;
         |a| == |b| && forall i | 0 <= i < |a| :: becomes(a[i], b[i])
    else SameField(v, w, key)
  }

  lemma ItemsBecome(v: Json, key: string, f: Json -> Json, becomes: (Json, Json) -> bool)
    requires forall x :: becomes(x, f(x))
    ensures var w := EachItem(v, key, f);
            ListBecomes(v, w, key, becomes) && forall k | k != key :: SameField(v, w, k)
  {}
}
