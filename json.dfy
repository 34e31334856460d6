/**
 * JSON values as `JSON.parse` returns them to the conversion tool
 * (js/convert.js), and the two JavaScript operations the tool applies to
 * them: `Object.entries` and `String(value)`.
 *
 * A number keeps the text JavaScript prints for it and whether
 * `Number.isInteger` holds of it; objects keep their members in the order
 * `Object.entries` visits them.
 */
module Json {
  import opened Text
  import opened Wrappers

  datatype Json =
    | Null
    | Bool(b: bool)
    | Num(text: string, integral: bool)
    | Str(s: string)
    | Arr(items: seq<Json>)
    | Obj(members: seq<Member>)

  datatype Member = Member(key: string, value: Json)

  /** `typeof value === 'object'`: true of `null`, arrays and objects. */
  predicate IsObjectType(v: Json) {
    v.Null? || v.Arr? || v.Obj?
  }

  /**
   * `Object.entries(v)`: `None` where JavaScript throws (for `null`); the
   * index keys of an array or a string; no entries for a boolean or a number.
   */
  function Entries(v: Json): (r: Option<seq<Member>>)
    ensures r.None? <==> v.Null?
  {
    match v
    case Null => None
    case Bool(_) => Some([])
    case Num(_, _) => Some([])
    case Str(s) => Some(seq(|s|, k requires 0 <= k < |s| => Member(IntString(k), Str([s[k]]))))
    case Arr(items) => Some(seq(|items|, k requires 0 <= k < |items| => Member(IntString(k), items[k])))
    case Obj(members) => Some(members)
  }

  /** `String(v)`: arrays join their elements with ',', where `null` shows as nothing. */
  function JsString(v: Json): string
    decreases v, 1
  {
    match v
    case Null => "null"
    case Bool(b) => if b then "true" else "false"
    case Num(text, _) => text
    case Str(s) => s
    case Arr(items) => ItemsString(v, |items|)
    case Obj(_) => "[object Object]"
  }

  /** The first `n` elements of the array `v`, as `Array.prototype.join` writes them. */
  function ItemsString(v: Json, n: nat): string
    requires v.Arr? && n <= |v.items|
    decreases v, 0, n
  {
    if n == 0 then ""
    else
      var last := v.items[n - 1];
      var shown := if last.Null? then "" else JsString(last);
      if n == 1 then shown else ItemsString(v, n - 1) + "," + shown
  }

  /** What `Object.entries` visits: an object's members, an array's elements or a string's characters under their indices. */
  lemma EntriesOf(v: Json)
    ensures v.Obj? ==> Entries(v) == Some(v.members)
    ensures v.Arr? ==> Entries(v).Some? && |Entries(v).value| == |v.items|
    ensures v.Arr? ==> forall k :: 0 <= k < |v.items| ==> Entries(v).value[k] == Member(IntString(k), v.items[k])
    ensures v.Str? ==> Entries(v).Some? && |Entries(v).value| == |v.s|
    ensures v.Str? ==> forall k :: 0 <= k < |v.s| ==> Entries(v).value[k] == Member(IntString(k), Str([v.s[k]]))
    ensures v.Bool? || v.Num? ==> Entries(v) == Some([])
  {
  }

  /** The objects and arrays among `entries` lie inside `v`. */
  ghost predicate Inside(v: Json, entries: seq<Member>) {
    forall k :: 0 <= k < |entries| && (entries[k].value.Obj? || entries[k].value.Arr?) ==> entries[k].value < v
  }

  /** An object or array among the entries of `v` lies inside `v`. */
  lemma EntriesBelow(v: Json, entries: seq<Member>)
    requires Entries(v) == Some(entries)
    ensures forall k :: 0 <= k < |entries| && (entries[k].value.Obj? || entries[k].value.Arr?) ==> entries[k].value < v
  {
    EntriesOf(v);
    forall k | 0 <= k < |entries| && (entries[k].value.Obj? || entries[k].value.Arr?)
      ensures entries[k].value < v
    {
      match v
      case Obj(members) =>
        assert entries[k] == members[k];
      case Arr(items) =>
        assert entries[k].value == items[k];
    }
  }
}
