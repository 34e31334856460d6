/**
 * The JSON-value to type-name mappers of the conversion tool
 * (js/convert.js, lines 20-118): one per target language, each naming the
 * type of an array after the type of its first element.
 */
module TypeNames {
  import opened Json

  /** `isArray && value && value.length > 0` for the values the tool passes: a non-empty array or string. */
  predicate HasFirst(v: Json) {
    (v.Arr? && |v.items| > 0) || (v.Str? && |v.s| > 0)
  }

  /** A non-empty array, whose type is named after its first element. */
  predicate IsNonEmptyArray(v: Json) {
    v.Arr? && |v.items| > 0
  }

  /**
   * `getJavaType(value, isArray)`. With `isArray` set, a non-empty string
   * counts as a list of its one-character strings.
   */
  function JavaType(v: Json, isArray: bool): string
    decreases if isArray then 1 else 0, v
  {
    if isArray then
      if IsNonEmptyArray(v) then "List<" + JavaType(v.items[0], false) + ">"
      else if HasFirst(v) then "List<" + JavaType(Str([v.s[0]]), false) + ">"
      else "List<Object>"
    else
      match v
      case Null => "Object"
      case Str(_) => "String"
      case Num(_, integral) => if integral then "Integer" else "Double"
      case Bool(_) => "Boolean"
      case Arr(items) => if |items| > 0 then "List<" + JavaType(items[0], false) + ">" else "List<Object>"
      case Obj(_) => "Object"
  }

  /** `getGolangType(value, isArray)`. */
  function GolangType(v: Json, isArray: bool): string
    decreases if isArray then 1 else 0, v
  {
    if isArray then
      if IsNonEmptyArray(v) then "[]" + GolangType(v.items[0], false)
      else if HasFirst(v) then "[]" + GolangType(Str([v.s[0]]), false)
      else "[]interface{}"
    else
      match v
      case Null => "interface{}"
      case Str(_) => "string"
      case Num(_, integral) => if integral then "int" else "float64"
      case Bool(_) => "bool"
      case Arr(items) => if |items| > 0 then "[]" + GolangType(items[0], false) else "[]interface{}"
      case Obj(_) => "interface{}"
  }

  /** `getCSharpType(value, isArray)`. */
  function CSharpType(v: Json, isArray: bool): string
    decreases if isArray then 1 else 0, v
  {
    if isArray then
      if IsNonEmptyArray(v) then "List<" + CSharpType(v.items[0], false) + ">"
      else if HasFirst(v) then "List<" + CSharpType(Str([v.s[0]]), false) + ">"
      else "List<object>"
    else
      match v
      case Null => "object"
      case Str(_) => "string"
      case Num(_, integral) => if integral then "int" else "double"
      case Bool(_) => "bool"
      case Arr(items) => if |items| > 0 then "List<" + CSharpType(items[0], false) + ">" else "List<object>"
      case Obj(_) => "object"
  }

  /** `getRustType(value, isArray)`. */
  function RustType(v: Json, isArray: bool): string
    decreases if isArray then 1 else 0, v
  {
    if isArray then
      if IsNonEmptyArray(v) then "Vec<" + RustType(v.items[0], false) + ">"
      else if HasFirst(v) then "Vec<" + RustType(Str([v.s[0]]), false) + ">"
      else "Vec<serde_json::Value>"
    else
      match v
      case Null => "Option<serde_json::Value>"
      case Str(_) => "String"
      case Num(_, integral) => if integral then "i64" else "f64"
      case Bool(_) => "bool"
      case Arr(items) => if |items| > 0 then "Vec<" + RustType(items[0], false) + ">" else "Vec<serde_json::Value>"
      case Obj(_) => "serde_json::Value"
  }

  // ---------------------------------------------------------------- one scheme for all four

  datatype Lang = Java | Golang | CSharp | Rust

  /** What a value that is not a non-empty array is, as far as its type name goes. */
  datatype Kind = NullKind | StringKind | IntegerKind | FloatKind | BoolKind | EmptyArrayKind | ObjectKind

  /** How many times the chain of first elements enters a non-empty array. */
  function Depth(v: Json): nat
    decreases v
  {
    if IsNonEmptyArray(v) then 1 + Depth(v.items[0]) else 0
  }

  /** Where the chain of first elements ends. */
  function Innermost(v: Json): (u: Json)
    ensures !IsNonEmptyArray(u)
    decreases v
  {
    if IsNonEmptyArray(v) then Innermost(v.items[0]) else v
  }

  function KindOf(u: Json): Kind
    requires !IsNonEmptyArray(u)
  {
    match u
    case Null => NullKind
    case Str(_) => StringKind
    case Num(_, integral) => if integral then IntegerKind else FloatKind
    case Bool(_) => BoolKind
    case Arr(_) => EmptyArrayKind
    case Obj(_) => ObjectKind
  }

  /** The type names of the four languages, as one table. */
  function ScalarName(lang: Lang, k: Kind): string {
    match lang
    case Java =>
      (match k
       case NullKind => "Object" case StringKind => "String" case IntegerKind => "Integer"
       case FloatKind => "Double" case BoolKind => "Boolean" case EmptyArrayKind => "List<Object>"
       case ObjectKind => "Object")
    case Golang =>
      (match k
       case NullKind => "interface{}" case StringKind => "string" case IntegerKind => "int"
       case FloatKind => "float64" case BoolKind => "bool" case EmptyArrayKind => "[]interface{}"
       case ObjectKind => "interface{}")
    case CSharp =>
      (match k
       case NullKind => "object" case StringKind => "string" case IntegerKind => "int"
       case FloatKind => "double" case BoolKind => "bool" case EmptyArrayKind => "List<object>"
       case ObjectKind => "object")
    case Rust =>
      (match k
       case NullKind => "Option<serde_json::Value>" case StringKind => "String" case IntegerKind => "i64"
       case FloatKind => "f64" case BoolKind => "bool" case EmptyArrayKind => "Vec<serde_json::Value>"
       case ObjectKind => "serde_json::Value")
  }

  function ListOpen(lang: Lang): string {
    match lang
    case Java => "List<" case Golang => "[]" case CSharp => "List<" case Rust => "Vec<"
  }

  function ListClose(lang: Lang): string {
    match lang
    case Java => ">" case Golang => "" case CSharp => ">" case Rust => ">"
  }

  function Repeat(s: string, n: nat): string {
    if n == 0 then "" else s + Repeat(s, n - 1)
  }

  lemma {:induction false} RepeatSnoc(s: string, n: nat)
    ensures Repeat(s, n + 1) == Repeat(s, n) + s
  {
    if n > 0 {
      RepeatSnoc(s, n - 1);
    }
  }

  /** The reference: one list wrapper per array level around the name of the innermost kind. */
  function Nested(lang: Lang, v: Json): string {
    var d := Depth(v);
    Repeat(ListOpen(lang), d) + ScalarName(lang, KindOf(Innermost(v))) + Repeat(ListClose(lang), d)
  }

  lemma Wrapped(o: string, c: string, d: nat, b: string)
    ensures o + (Repeat(o, d) + b + Repeat(c, d)) + c == Repeat(o, d + 1) + b + Repeat(c, d + 1)
  {
    RepeatSnoc(c, d);
  }

  /** The type a mapper gives a value, written once for all four languages. */
  function TypeFor(lang: Lang, v: Json): string {
    match lang
    case Java => JavaType(v, false)
    case Golang => GolangType(v, false)
    case CSharp => CSharpType(v, false)
    case Rust => RustType(v, false)
  }

  /** The four mappers have one shape: list wrappers per level of first elements, then a scalar name. */
  lemma {:induction false} TypeForNested(lang: Lang, v: Json)
    ensures TypeFor(lang, v) == Nested(lang, v)
    decreases v
  {
    if IsNonEmptyArray(v) {
      var e := v.items[0];
      TypeForNested(lang, e);
      Wrapped(ListOpen(lang), ListClose(lang), Depth(e), ScalarName(lang, KindOf(Innermost(e))));
      TypeForWraps(lang, v);
    } else {
      TypeForScalar(lang, v);
    }
  }

  /** A non-empty array's type wraps its first element's type in the language's list type. */
  lemma TypeForWraps(lang: Lang, v: Json)
    requires IsNonEmptyArray(v)
    ensures TypeFor(lang, v) == ListOpen(lang) + TypeFor(lang, v.items[0]) + ListClose(lang)
  {
  }

  /** Any other value gets the table's name for its kind. */
  lemma TypeForScalar(lang: Lang, v: Json)
    requires !IsNonEmptyArray(v)
    ensures TypeFor(lang, v) == ScalarName(lang, KindOf(v))
  {
  }

  /** With `isArray` set, an array gets the same type as without it. */
  lemma ArrayFlagAgrees(v: Json)
    requires v.Arr?
    ensures JavaType(v, true) == JavaType(v, false)
    ensures GolangType(v, true) == GolangType(v, false)
    ensures CSharpType(v, true) == CSharpType(v, false)
    ensures RustType(v, true) == RustType(v, false)
  {
  }

  /** With `isArray` set, a non-empty string is a list of strings. */
  lemma StringAsList(v: Json)
    requires v.Str? && |v.s| > 0
    ensures JavaType(v, true) == "List<String>"
    ensures GolangType(v, true) == "[]string"
    ensures CSharpType(v, true) == "List<string>"
    ensures RustType(v, true) == "Vec<String>"
  {
  }
}
