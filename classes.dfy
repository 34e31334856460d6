/**
 * `parseJsonToClasses` of the conversion tool (js/convert.js, lines
 * 120-157): the class structure the code generators work from. One field per
 * entry of the object; a nested object, or an array whose first element is an
 * object, becomes a nested class named after its key, unless a class of that
 * name was already claimed in the shared `generatedClasses` map.
 */
module Classes {
  import opened Wrappers
  import opened Json
  import opened Naming

  /** Which of the source's `isObject`, `isArray`, `isObjectArray` flags a field carries. */
  datatype FieldKind = Plain(isArray: bool) | NestedObject | ObjectArray

  /** `{ name, type, originalKey, value, ... }`. */
  datatype Field = Field(name: string, typeName: Option<string>, originalKey: string, value: Json, kind: FieldKind)

  /** `{ className, fields, classes }`: `classes` lists the nested classes, innermost first. */
  datatype ParsedClass = ParsedClass(className: string, fields: seq<Field>, classes: seq<ParsedClass>)

  /** `Object.entries(null)` throws a `TypeError`. */
  datatype ParseError = EntriesOfNull

  /** The result and the names claimed in `generatedClasses` afterwards. */
  datatype Outcome = Outcome(result: Result<ParsedClass, ParseError>, claimed: set<string>)

  /** The state after some of the entries: the error thrown, if any, and what was pushed so far. */
  datatype Progress = Progress(error: Option<ParseError>, fields: seq<Field>, nested: seq<ParsedClass>, claimed: set<string>)

  /** `key.slice(0, -1)`, the key of an array of objects without its plural 's'. */
  function DropLast(key: string): string {
    if key == [] then [] else key[..|key| - 1]
  }

  /** An entry whose value makes a nested class: an object, or an array whose first element is of type 'object'. */
  predicate NeedsClass(value: Json) {
    value.Obj? || (value.Arr? && |value.items| > 0 && IsObjectType(value.items[0]))
  }

  /** The value the nested class is parsed from. */
  function Inner(value: Json): Json
    requires NeedsClass(value)
  {
    if value.Obj? then value else value.items[0]
  }

  /** The nested class's name: the key in Pascal case, without its last character for an array. */
  function ClassNameFor(e: Member): string {
    if e.value.Obj? then ToPascalCase(e.key) else ToPascalCase(DropLast(e.key))
  }

  /** The field an entry makes, whatever was claimed before: it depends on the entry alone. */
  function FieldFor(e: Member): Field {
    var name := ToCamelCase(e.key);
    if e.value.Null? then Field(name, Some("Object"), e.key, e.value, Plain(false))
    else if e.value.Obj? then Field(name, Some(ClassNameFor(e)), e.key, e.value, NestedObject)
    else if NeedsClass(e.value) then Field(name, Some(ClassNameFor(e)), e.key, e.value, ObjectArray)
    else Field(name, None, e.key, e.value, Plain(e.value.Arr?))
  }

  /** `parseJsonToClasses(v, className, generatedClasses)`. */
  function ParseClasses(v: Json, className: string, claimed: set<string>): Outcome
    decreases v, 1
  {
    match Entries(v)
    case None => Outcome(Failure(EntriesOfNull), claimed)
    case Some(entries) =>
      var p := ParseEntries(v, entries, |entries|, claimed);
      if p.error.Some? then Outcome(Failure(p.error.value), p.claimed)
      else Outcome(Success(ParsedClass(className, p.fields, p.nested)), p.claimed)
  }

  /** The loop of lines 124-154 over the first `n` entries. */
  function ParseEntries(v: Json, entries: seq<Member>, n: nat, claimed: set<string>): Progress
    requires Entries(v) == Some(entries) && n <= |entries|
    decreases v, 0, n
  {
    if n == 0 then Progress(None, [], [], claimed)
    else
      var p := ParseEntries(v, entries, n - 1, claimed);
      if p.error.Some? then p
      else
        var e := entries[n - 1];
        EntryBelow(v, entries, n - 1);
        Advance(p, e, SubParse(v, p, e))
  }

  /** The recursive parse of line 135 or 145, when the entry makes a nested class whose name is still free. */
  function SubParse(v: Json, p: Progress, e: Member): Option<Outcome>
    requires NeedsClass(e.value) ==> Inner(e.value) < v
    decreases v, 0, 0
  {
    if NeedsClass(e.value) && ClassNameFor(e) !in p.claimed then
      var name := ClassNameFor(e);
      Some(ParseClasses(Inner(e.value), name, p.claimed + {name}))
    else None
  }

  /** One entry: its field, and the recursive parse `sub` when a nested class was still free. */
  function Advance(p: Progress, e: Member, sub: Option<Outcome>): Progress {
    match sub
    case None => p.(fields := p.fields + [FieldFor(e)])
    case Some(o) =>
      match o.result
      case Failure(err) => p.(error := Some(err), claimed := o.claimed)
      case Success(c) => Progress(None, p.fields + [FieldFor(e)], p.nested + c.classes + [c], o.claimed)
  }

  /** The value a nested class is parsed from lies inside `v`. */
  lemma EntryBelow(v: Json, entries: seq<Member>, k: nat)
    requires Entries(v) == Some(entries) && k < |entries|
    ensures NeedsClass(entries[k].value) ==> Inner(entries[k].value) < v
  {
    EntriesOf(v);
    match v
    case Obj(members) =>
      assert entries[k] == members[k];
    case Arr(items) =>
      assert entries[k].value == items[k];
    case Str(s) =>
      assert entries[k].value == Str([s[k]]);
    case _ =>
  }

  // ---------------------------------------------------------------- the registry

  /** The `generatedClasses` map shared by a whole parse: the class names already claimed. */
  class Registry {
    var claimed: set<string>

    constructor ()
      ensures claimed == {}
    {
      claimed := {};
    }

    /** `parseJsonToClasses(jsonObj, className, this)`. */
    method ParseJsonToClasses(jsonObj: Json, className: string) returns (r: Result<ParsedClass, ParseError>)
      modifies this
      ensures Outcome(r, claimed) == ParseClasses(jsonObj, className, old(claimed))
      decreases jsonObj, 1
    {
      var found := Entries(jsonObj);
      if found.None? {
        return Failure(EntriesOfNull);
      }
      var entries := found.value;
      var fields: seq<Field> := [];
      var nestedClasses: seq<ParsedClass> := [];
      for i := 0 to |entries|
        invariant ParseEntries(jsonObj, entries, i, old(claimed)) == Progress(None, fields, nestedClasses, claimed)
      {
        EntriesNext(jsonObj, entries, i, old(claimed));
        var err;
        err, fields, nestedClasses := ParseEntry(jsonObj, entries[i], fields, nestedClasses);
        if err.Some? {
          ErrorStays(jsonObj, entries, i + 1, old(claimed));
          return Failure(err.value);
        }
      }
      return Success(ParsedClass(className, fields, nestedClasses));
    }

    /**
     * One pass of the entry loop, lines 125-153: the field `e` makes, after
     * the recursive parse of its nested class when that name is still free.
     * An error thrown by that parse is handed back, with nothing pushed.
     */
    method ParseEntry(v: Json, e: Member, fields: seq<Field>, nestedClasses: seq<ParsedClass>)
      returns (err: Option<ParseError>, fields': seq<Field>, nested': seq<ParsedClass>)
      requires NeedsClass(e.value) ==> Inner(e.value) < v
      modifies this
      ensures var p := Progress(None, fields, nestedClasses, old(claimed));
        Progress(err, fields', nested', claimed) == Advance(p, e, SubParse(v, p, e))
      decreases v, 0
    {
      ghost var p := Progress(None, fields, nestedClasses, claimed);
      err, fields', nested' := None, fields, nestedClasses;
      var key, value := e.key, e.value;
      var fieldName := ToCamelCase(key);
      if value.Null? {
        fields' := fields' + [Field(fieldName, Some("Object"), key, value, Plain(false))];
      } else if value.Obj? {
        var nestedClassName := ToPascalCase(key);
        if nestedClassName !in claimed {
          claimed := claimed + {nestedClassName};
          var nested := ParseJsonToClasses(value, nestedClassName);
          assert SubParse(v, p, e) == Some(Outcome(nested, claimed));
          if nested.Failure? {
            return Some(nested.error), fields, nestedClasses;
          }
          nested' := nested' + nested.value.classes + [nested.value];
        }
        fields' := fields' + [Field(fieldName, Some(nestedClassName), key, value, NestedObject)];
      } else if value.Arr? && |value.items| > 0 && IsObjectType(value.items[0]) {
        var nestedClassName := ToPascalCase(DropLast(key));
        if nestedClassName !in claimed {
          claimed := claimed + {nestedClassName};
          var nested := ParseJsonToClasses(value.items[0], nestedClassName);
          assert SubParse(v, p, e) == Some(Outcome(nested, claimed));
          if nested.Failure? {
            return Some(nested.error), fields, nestedClasses;
          }
          nested' := nested' + nested.value.classes + [nested.value];
        }
        fields' := fields' + [Field(fieldName, Some(nestedClassName), key, value, ObjectArray)];
      } else {
        fields' := fields' + [Field(fieldName, None, key, value, Plain(value.Arr?))];
      }
    }
  }

  /** One more entry, after entries that threw nothing. */
  lemma EntriesNext(v: Json, entries: seq<Member>, i: nat, claimed: set<string>)
    requires Entries(v) == Some(entries) && i < |entries|
    requires ParseEntries(v, entries, i, claimed).error.None?
    ensures NeedsClass(entries[i].value) ==> Inner(entries[i].value) < v
    ensures var p := ParseEntries(v, entries, i, claimed);
      ParseEntries(v, entries, i + 1, claimed) == Advance(p, entries[i], SubParse(v, p, entries[i]))
  {
    EntryBelow(v, entries, i);
  }

  /** Once thrown, the error ends the parse: the later entries keep it and claim no name. */
  lemma {:induction false} ErrorStays(v: Json, entries: seq<Member>, n: nat, claimed: set<string>)
    requires Entries(v) == Some(entries) && n <= |entries|
    requires ParseEntries(v, entries, n, claimed).error.Some?
    ensures ParseEntries(v, entries, |entries|, claimed).error == ParseEntries(v, entries, n, claimed).error
    ensures ParseEntries(v, entries, |entries|, claimed).claimed == ParseEntries(v, entries, n, claimed).claimed
    decreases |entries| - n
  {
    if n < |entries| {
      ErrorNext(v, entries, n, claimed);
      ErrorStays(v, entries, n + 1, claimed);
    }
  }

  /** An entry after the error keeps it, and claims no name. */
  lemma ErrorNext(v: Json, entries: seq<Member>, n: nat, claimed: set<string>)
    requires Entries(v) == Some(entries) && n < |entries|
    requires ParseEntries(v, entries, n, claimed).error.Some?
    ensures ParseEntries(v, entries, n + 1, claimed).error == ParseEntries(v, entries, n, claimed).error
    ensures ParseEntries(v, entries, n + 1, claimed).claimed == ParseEntries(v, entries, n, claimed).claimed
  {
  }

  // ---------------------------------------------------------------- one field per entry

  /** The fields are those of the first `n` entries, in order. */
  predicate FieldsFollow(fields: seq<Field>, entries: seq<Member>, n: nat) {
    |fields| == n && n <= |entries| && forall k :: 0 <= k < n ==> fields[k] == FieldFor(entries[k])
  }

  /** An error-free parse of `n` entries was error-free before the last one. */
  lemma EarlierNoError(v: Json, entries: seq<Member>, n: nat, claimed: set<string>)
    requires Entries(v) == Some(entries) && 0 < n <= |entries|
    requires ParseEntries(v, entries, n, claimed).error.None?
    ensures ParseEntries(v, entries, n - 1, claimed).error.None?
  {
  }

  lemma AdvanceFields(p: Progress, e: Member, sub: Option<Outcome>)
    requires Advance(p, e, sub).error.None?
    ensures Advance(p, e, sub).fields == p.fields + [FieldFor(e)]
  {
  }

  /** The field of each entry, in order. */
  function FieldsOf(entries: seq<Member>): (r: seq<Field>)
    ensures |r| == |entries|
  {
    if entries == [] then [] else FieldsOf(entries[..|entries| - 1]) + [FieldFor(entries[|entries| - 1])]
  }

  lemma FieldsOfPrefix(entries: seq<Member>, n: nat)
    requires 0 < n <= |entries|
    ensures FieldsOf(entries[..n]) == FieldsOf(entries[..n - 1]) + [FieldFor(entries[n - 1])]
  {
    assert entries[..n][..n - 1] == entries[..n - 1];
  }

  /** `FieldsOf` pairs field `k` with entry `k`. */
  lemma {:induction false} FieldsOfFollow(entries: seq<Member>, n: nat)
    requires n <= |entries|
    ensures FieldsFollow(FieldsOf(entries[..n]), entries, n)
  {
    if n > 0 {
      FieldsOfFollow(entries, n - 1);
      FieldsOfPrefix(entries, n);
      FieldsSnoc(FieldsOf(entries[..n - 1]), entries, n - 1);
    }
  }

  lemma {:induction false} EntriesFields(v: Json, entries: seq<Member>, n: nat, claimed: set<string>)
    requires Entries(v) == Some(entries) && n <= |entries|
    requires ParseEntries(v, entries, n, claimed).error.None?
    ensures ParseEntries(v, entries, n, claimed).fields == FieldsOf(entries[..n])
  {
    if n > 0 {
      var x := FieldFor(entries[n - 1]);
      assert ParseEntries(v, entries, n, claimed).fields == ParseEntries(v, entries, n - 1, claimed).fields + [x]
        && ParseEntries(v, entries, n - 1, claimed).error.None? by {
        NextFields(v, entries, n - 1, claimed);
      }
      EntriesFields(v, entries, n - 1, claimed);
      FieldsOfPrefix(entries, n);
    }
  }

  /** An entry that throws nothing adds its own field and no other. */
  lemma NextFields(v: Json, entries: seq<Member>, i: nat, claimed: set<string>)
    requires Entries(v) == Some(entries) && i < |entries|
    requires ParseEntries(v, entries, i + 1, claimed).error.None?
    ensures ParseEntries(v, entries, i, claimed).error.None?
    ensures ParseEntries(v, entries, i + 1, claimed).fields == ParseEntries(v, entries, i, claimed).fields + [FieldFor(entries[i])]
  {
    EarlierNoError(v, entries, i + 1, claimed);
    var p := ParseEntries(v, entries, i, claimed);
    EntriesNext(v, entries, i, claimed);
    AdvanceFields(p, entries[i], SubParse(v, p, entries[i]));
  }

  lemma FieldsSnoc(fields: seq<Field>, entries: seq<Member>, n: nat)
    requires FieldsFollow(fields, entries, n) && n < |entries|
    ensures FieldsFollow(fields + [FieldFor(entries[n])], entries, n + 1)
  {
  }

  /** A successful parse makes one field per entry, in entry order. */
  lemma ParsedFields(v: Json, className: string, claimed: set<string>)
    requires ParseClasses(v, className, claimed).result.Success?
    ensures Entries(v).Some?
    ensures ParseClasses(v, className, claimed).result.value.className == className
    ensures FieldsFollow(ParseClasses(v, className, claimed).result.value.fields, Entries(v).value, |Entries(v).value|)
  {
    var entries := Entries(v).value;
    EntriesFields(v, entries, |entries|, claimed);
    assert entries[..|entries|] == entries;
    FieldsOfFollow(entries, |entries|);
  }

  // ---------------------------------------------------------------- each name claimed once

  /**
   * `classes` have distinct names, none claimed before, and the names claimed
   * afterwards are those before and theirs.
   */
  predicate Fresh(classes: seq<ParsedClass>, before: set<string>, after: set<string>) {
    && (forall i, j :: 0 <= i < j < |classes| ==> classes[i].className != classes[j].className)
    && (forall i :: 0 <= i < |classes| ==> classes[i].className !in before)
    && after == before + Names(classes)
  }

  lemma FreshEmpty(before: set<string>)
    ensures Fresh([], before, before)
  {
  }

  function Names(classes: seq<ParsedClass>): set<string> {
    set i | 0 <= i < |classes| :: classes[i].className
  }

  lemma NamesAppend(a: seq<ParsedClass>, b: seq<ParsedClass>, x: ParsedClass)
    ensures Names(a + b + [x]) == Names(a) + Names(b) + {x.className}
  {
    var cs := a + b + [x];
    forall n | n in Names(cs)
      ensures n in Names(a) + Names(b) + {x.className}
    {
      var i :| 0 <= i < |cs| && cs[i].className == n;
      if i < |a| {
        assert cs[i] == a[i];
      } else if i < |a| + |b| {
        assert cs[i] == b[i - |a|];
      }
    }
    forall n | n in Names(a) + Names(b) + {x.className}
      ensures n in Names(cs)
    {
      if n in Names(a) {
        var i :| 0 <= i < |a| && a[i].className == n;
        assert cs[i] == a[i];
      } else if n in Names(b) {
        var i :| 0 <= i < |b| && b[i].className == n;
        assert cs[|a| + i] == b[i];
      } else {
        assert cs[|cs| - 1] == x;
      }
    }
  }

  lemma DistinctAppend(a: seq<ParsedClass>, b: seq<ParsedClass>, x: ParsedClass, c1: set<string>)
    requires forall i, j :: 0 <= i < j < |a| ==> a[i].className != a[j].className
    requires forall i, j :: 0 <= i < j < |b| ==> b[i].className != b[j].className
    requires Names(a) <= c1 && x.className !in c1
    requires forall i :: 0 <= i < |b| ==> b[i].className !in c1 + {x.className}
    ensures forall i, j :: 0 <= i < j < |a + b + [x]| ==> (a + b + [x])[i].className != (a + b + [x])[j].className
  {
    var cs := a + b + [x];
    forall i, j | 0 <= i < j < |cs|
      ensures cs[i].className != cs[j].className
    {
      if i < |a| {
        assert cs[i] == a[i];
        assert a[i].className in Names(a);
        if j < |a| {
          assert cs[j] == a[j];
        } else if j < |a| + |b| {
          assert cs[j] == b[j - |a|];
        }
      } else if i < |a| + |b| {
        assert cs[i] == b[i - |a|];
        if j < |a| + |b| {
          assert cs[j] == b[j - |a|];
        }
      }
    }
  }

  lemma FreshStep(a: seq<ParsedClass>, b: seq<ParsedClass>, x: ParsedClass, c0: set<string>, c1: set<string>, c2: set<string>)
    requires Fresh(a, c0, c1) && x.className !in c1 && Fresh(b, c1 + {x.className}, c2)
    ensures Fresh(a + b + [x], c0, c2)
  {
    var cs := a + b + [x];
    NamesAppend(a, b, x);
    assert Names(a) <= c1;
    DistinctAppend(a, b, x, c1);
    forall i | 0 <= i < |cs|
      ensures cs[i].className !in c0
    {
      if i < |a| {
        assert cs[i] == a[i];
      } else if i < |a| + |b| {
        assert cs[i] == b[i - |a|];
      }
    }
  }

  /** Nested classes are parsed only under names not yet claimed, each claimed once. */
  lemma {:induction false} ParseFresh(v: Json, className: string, claimed: set<string>)
    requires ParseClasses(v, className, claimed).result.Success?
    ensures Fresh(ParseClasses(v, className, claimed).result.value.classes, claimed, ParseClasses(v, className, claimed).claimed)
    decreases v, 1
  {
    var entries := Entries(v).value;
    EntriesFresh(v, entries, |entries|, claimed);
  }

  lemma {:induction false} EntriesFresh(v: Json, entries: seq<Member>, n: nat, claimed: set<string>)
    requires Entries(v) == Some(entries) && n <= |entries|
    requires ParseEntries(v, entries, n, claimed).error.None?
    ensures Fresh(ParseEntries(v, entries, n, claimed).nested, claimed, ParseEntries(v, entries, n, claimed).claimed)
    decreases v, 0, n + 1
  {
    if n == 0 {
      FreshEmpty(claimed);
    } else {
      assert ParseEntries(v, entries, n - 1, claimed).error.None? by {
        EarlierNoError(v, entries, n, claimed);
      }
      EntriesFresh(v, entries, n - 1, claimed);
      NextFresh(v, entries, n, claimed);
    }
  }

  /** The step of `EntriesFresh` for entry `n - 1`. */
  lemma NextFresh(v: Json, entries: seq<Member>, n: nat, claimed: set<string>)
    requires Entries(v) == Some(entries) && 0 < n <= |entries|
    requires ParseEntries(v, entries, n - 1, claimed).error.None? && ParseEntries(v, entries, n, claimed).error.None?
    requires Fresh(ParseEntries(v, entries, n - 1, claimed).nested, claimed, ParseEntries(v, entries, n - 1, claimed).claimed)
    ensures Fresh(ParseEntries(v, entries, n, claimed).nested, claimed, ParseEntries(v, entries, n, claimed).claimed)
    decreases v, 0, 1
  {
    var p := ParseEntries(v, entries, n - 1, claimed);
    var e := entries[n - 1];
    EntryBelow(v, entries, n - 1);
    assert ParseEntries(v, entries, n, claimed) == Advance(p, e, SubParse(v, p, e)) by {
      EntriesNext(v, entries, n - 1, claimed);
    }
    SubFresh(v, p, e);
    FreshAdvance(p, e, SubParse(v, p, e), claimed);
  }

  /** A nested parse that succeeds claims its own name, not claimed before, and fresh classes after it. */
  lemma SubFresh(v: Json, p: Progress, e: Member)
    requires NeedsClass(e.value) ==> Inner(e.value) < v
    requires Advance(p, e, SubParse(v, p, e)).error.None?
    ensures var sub := SubParse(v, p, e);
      sub.Some? ==>
      && sub.value.result.Success? && sub.value.result.value.className !in p.claimed
      && Fresh(sub.value.result.value.classes, p.claimed + {sub.value.result.value.className}, sub.value.claimed)
    decreases v, 0, 0
  {
    var sub := SubParse(v, p, e);
    if sub.Some? {
      var name := ClassNameFor(e);
      assert sub.value == ParseClasses(Inner(e.value), name, p.claimed + {name}) && name !in p.claimed;
      ParseFresh(Inner(e.value), name, p.claimed + {name});
      ParsedName(Inner(e.value), name, p.claimed + {name});
    }
  }

  /** One entry keeps the nested classes fresh: a new class comes with its own fresh classes under a free name. */
  lemma FreshAdvance(p: Progress, e: Member, sub: Option<Outcome>, c0: set<string>)
    requires Fresh(p.nested, c0, p.claimed) && Advance(p, e, sub).error.None?
    requires sub.Some? ==>
      && sub.value.result.Success? && sub.value.result.value.className !in p.claimed
      && Fresh(sub.value.result.value.classes, p.claimed + {sub.value.result.value.className}, sub.value.claimed)
    ensures Fresh(Advance(p, e, sub).nested, c0, Advance(p, e, sub).claimed)
  {
    if sub.Some? {
      var c := sub.value.result.value;
      FreshStep(p.nested, c.classes, c, c0, p.claimed, sub.value.claimed);
    }
  }

  /** The parsed class carries the name it was parsed under. */
  lemma ParsedName(v: Json, className: string, claimed: set<string>)
    requires ParseClasses(v, className, claimed).result.Success?
    ensures ParseClasses(v, className, claimed).result.value.className == className
  {
  }

  /** The class names the fields refer to are claimed. */
  predicate TypesClaimed(fields: seq<Field>, claimed: set<string>) {
    forall k :: 0 <= k < |fields| && !fields[k].kind.Plain? ==> fields[k].typeName.Some? && fields[k].typeName.value in claimed
  }

  lemma {:induction false} EntriesTypesClaimed(v: Json, entries: seq<Member>, n: nat, claimed: set<string>)
    requires Entries(v) == Some(entries) && n <= |entries|
    requires ParseEntries(v, entries, n, claimed).error.None?
    ensures TypesClaimed(ParseEntries(v, entries, n, claimed).fields, ParseEntries(v, entries, n, claimed).claimed)
    decreases n
  {
    if n > 0 {
      assert ParseEntries(v, entries, n - 1, claimed).error.None? by {
        EarlierNoError(v, entries, n, claimed);
      }
      EntriesTypesClaimed(v, entries, n - 1, claimed);
      NextTypes(v, entries, n, claimed);
    }
  }

  /** The step of `EntriesTypesClaimed` for entry `n - 1`. */
  lemma NextTypes(v: Json, entries: seq<Member>, n: nat, claimed: set<string>)
    requires Entries(v) == Some(entries) && 0 < n <= |entries|
    requires ParseEntries(v, entries, n - 1, claimed).error.None? && ParseEntries(v, entries, n, claimed).error.None?
    requires TypesClaimed(ParseEntries(v, entries, n - 1, claimed).fields, ParseEntries(v, entries, n - 1, claimed).claimed)
    ensures TypesClaimed(ParseEntries(v, entries, n, claimed).fields, ParseEntries(v, entries, n, claimed).claimed)
  {
    var p := ParseEntries(v, entries, n - 1, claimed);
    EntriesNext(v, entries, n - 1, claimed);
    var e := entries[n - 1];
    var sub := SubParse(v, p, e);
    assert sub.Some? ==> p.claimed + {ClassNameFor(e)} <= sub.value.claimed by {
      if sub.Some? {
        var name := ClassNameFor(e);
        assert sub.value == ParseClasses(Inner(e.value), name, p.claimed + {name});
        ParseFresh(Inner(e.value), name, p.claimed + {name});
      }
    }
    TypesAdvance(p, e, sub);
  }

  /** One entry keeps the fields' class names claimed: a nested class is claimed under the name its field carries. */
  lemma TypesAdvance(p: Progress, e: Member, sub: Option<Outcome>)
    requires TypesClaimed(p.fields, p.claimed) && Advance(p, e, sub).error.None?
    requires sub.Some? ==> p.claimed + {ClassNameFor(e)} <= sub.value.claimed
    requires sub.None? && !FieldFor(e).kind.Plain? ==> ClassNameFor(e) in p.claimed
    ensures TypesClaimed(Advance(p, e, sub).fields, Advance(p, e, sub).claimed)
  {
    AdvanceFields(p, e, sub);
    TypesClaimedStep(p.fields, p.claimed, FieldFor(e), Advance(p, e, sub).claimed);
  }

  lemma TypesClaimedStep(fields: seq<Field>, c1: set<string>, f: Field, c2: set<string>)
    requires TypesClaimed(fields, c1) && c1 <= c2
    requires !f.kind.Plain? ==> f.typeName.Some? && f.typeName.value in c2
    ensures TypesClaimed(fields + [f], c2)
  {
  }

  lemma ParsedTypesClaimed(v: Json, className: string, claimed: set<string>)
    requires ParseClasses(v, className, claimed).result.Success?
    ensures TypesClaimed(ParseClasses(v, className, claimed).result.value.fields, ParseClasses(v, className, claimed).claimed)
  {
    var entries := Entries(v).value;
    EntriesTypesClaimed(v, entries, |entries|, claimed);
  }

  // ---------------------------------------------------------------- when the parse throws

  /** `parseJsonToClasses(null)` throws; booleans and numbers have no entries and make an empty class. */
  lemma ParseScalars(v: Json, className: string, claimed: set<string>)
    ensures v.Null? ==> ParseClasses(v, className, claimed) == Outcome(Failure(EntriesOfNull), claimed)
    ensures v.Bool? || v.Num? ==> ParseClasses(v, className, claimed) == Outcome(Success(ParsedClass(className, [], [])), claimed)
  {
  }

  /** An array of objects whose first element is `null` makes the parse throw, if its class name is free. */
  lemma NullFirstElementThrows(key: string, rest: seq<Json>, className: string, claimed: set<string>)
    requires ToPascalCase(DropLast(key)) !in claimed
    ensures ParseClasses(Obj([Member(key, Arr([Null] + rest))]), className, claimed).result == Failure(EntriesOfNull)
  {
    var v := Obj([Member(key, Arr([Null] + rest))]);
    var entries := [Member(key, Arr([Null] + rest))];
    EntriesOf(v);
    var p := ParseEntries(v, entries, 0, claimed);
    assert p == Progress(None, [], [], claimed);
    EntryBelow(v, entries, 0);
    assert Inner(entries[0].value) == Null;
    assert SubParse(v, p, entries[0]) == Some(ParseClasses(Null, ToPascalCase(DropLast(key)), claimed + {ToPascalCase(DropLast(key))}));
  }
}
