/**
 * The identifier case converters of the conversion tool (js/convert.js,
 * lines 3-18). Case mapping is ASCII only.
 */
module Naming {
  import opened Text

  /** `_` directly followed by a lower-case letter at position `i`. */
  predicate MatchAt(s: string, i: int) {
    0 <= i < |s| - 1 && s[i] == '_' && IsAsciiLower(s[i + 1])
  }

  /** No `_` is directly followed by a lower-case letter. */
  predicate NoUnderscoreLower(s: string) {
    forall i :: 0 <= i < |s| - 1 ==> !MatchAt(s, i)
  }

  /** `s.replace(/_([a-z])/g, g => g[1].toUpperCase())`, scanning from the left. */
  function RaiseAfterUnderscores(s: string): (r: string)
    ensures |r| <= |s|
    ensures r != [] <==> s != []
    ensures r != [] ==> r[0] == if MatchAt(s, 0) then ToUpperChar(s[1]) else s[0]
    decreases |s|
  {
    if s == [] then []
    else if MatchAt(s, 0) then [ToUpperChar(s[1])] + RaiseAfterUnderscores(s[2..])
    else [s[0]] + RaiseAfterUnderscores(s[1..])
  }

  /** `s.replace(/^[a-z]/, g => g.toUpperCase())`. */
  function RaiseFirst(s: string): (r: string)
    ensures |r| == |s|
    ensures r != [] ==> !IsAsciiLower(r[0]) && r[0] == ToUpperChar(s[0])
    ensures s == [] || r[1..] == s[1..]
  {
    if s != [] && IsAsciiLower(s[0]) then [ToUpperChar(s[0])] + s[1..] else s
  }

  /** `toCamelCase`. Its second rewrite makes the first letter a capital as well. */
  function ToCamelCase(s: string): string {
    RaiseFirst(RaiseAfterUnderscores(s))
  }

  /** `toPascalCase`: the camel-case name with its first character upper-cased. */
  function ToPascalCase(s: string): (r: string)
    ensures r == ToCamelCase(s)
  {
    var camel := ToCamelCase(s);
    if camel == [] then [] else [ToUpperChar(camel[0])] + camel[1..]
  }

  /** `s.replace(/([A-Z])/g, '_$1')`. */
  function MarkCapitals(s: string): string
    decreases |s|
  {
    if s == [] then [] else (if IsAsciiUpper(s[0]) then ['_', s[0]] else [s[0]]) + MarkCapitals(s[1..])
  }

  /** `s.replace(/^_/, '')`. */
  function DropLeadingUnderscore(s: string): string {
    if s != [] && s[0] == '_' then s[1..] else s
  }

  /** `toSnakeCase`. */
  function ToSnakeCase(s: string): string {
    DropLeadingUnderscore(ToLower(MarkCapitals(s)))
  }

  // ---------------------------------------------------------------- camel case

  lemma {:induction false} RaisedHasNoMatch(s: string)
    ensures NoUnderscoreLower(RaiseAfterUnderscores(s))
    decreases |s|
  {
    if s != [] {
      var rest := if MatchAt(s, 0) then s[2..] else s[1..];
      RaisedHasNoMatch(rest);
      var t := RaiseAfterUnderscores(rest);
      var c := if MatchAt(s, 0) then ToUpperChar(s[1]) else s[0];
      var r := [c] + t;
      forall i | 0 <= i < |r| - 1
        ensures !MatchAt(r, i)
      {
        if i > 0 {
          assert r[i] == t[i - 1] && r[i + 1] == t[i];
          assert !MatchAt(t, i - 1);
        } else if c == '_' && !MatchAt(s, 0) {
          // `s[0]` is `_` not followed by a lower-case letter, and `t` starts
          // with that letter or with a capital.
          assert !IsAsciiLower(t[0]);
        }
      }
    }
  }

  /** Raising the first letter creates no `_` before a lower-case letter. */
  lemma RaiseFirstKeeps(s: string)
    requires NoUnderscoreLower(s)
    ensures NoUnderscoreLower(RaiseFirst(s))
  {
    var r := RaiseFirst(s);
    forall i | 0 <= i < |r| - 1
      ensures !MatchAt(r, i)
    {
      assert r[i + 1] == s[i + 1];
      assert r[i] == '_' ==> s[i] == '_';
      assert !MatchAt(s, i);
    }
  }

  /** The camel-case name never has `_` before a lower-case letter, nor starts with a lower-case letter. */
  lemma CamelCaseShape(s: string)
    ensures NoUnderscoreLower(ToCamelCase(s))
    ensures ToCamelCase(s) == [] || !IsAsciiLower(ToCamelCase(s)[0])
  {
    RaisedHasNoMatch(s);
    RaiseFirstKeeps(RaiseAfterUnderscores(s));
  }

  lemma {:induction false} RaiseIdle(s: string)
    requires NoUnderscoreLower(s)
    ensures RaiseAfterUnderscores(s) == s
    decreases |s|
  {
    if s != [] {
      assert !MatchAt(s, 0);
      assert NoUnderscoreLower(s[1..]) by {
        forall i | 0 <= i < |s[1..]| - 1
          ensures !MatchAt(s[1..], i)
        {
          assert !MatchAt(s, i + 1);
        }
      }
      RaiseIdle(s[1..]);
      HeadTail(s);
    }
  }

  /** A name already in camel-case shape is left alone, so converting twice changes nothing more. */
  lemma CamelCaseIdempotent(s: string)
    ensures ToCamelCase(ToCamelCase(s)) == ToCamelCase(s)
  {
    var c := ToCamelCase(s);
    CamelCaseShape(s);
    RaiseIdle(c);
  }

  /** Each `_x` rewrite removes one character: the length drops by the number of rewrites. */
  function Rewrites(s: string): nat
    decreases |s|
  {
    if s == [] then 0 else if MatchAt(s, 0) then 1 + Rewrites(s[2..]) else Rewrites(s[1..])
  }

  lemma {:induction false} CamelCaseLength(s: string)
    ensures |ToCamelCase(s)| == |s| - Rewrites(s)
    decreases |s|
  {
    if s != [] {
      if MatchAt(s, 0) {
        CamelCaseLength(s[2..]);
      } else {
        CamelCaseLength(s[1..]);
      }
    }
  }

  // ---------------------------------------------------------------- snake case

  /** The snake-case name has no capital letter. */
  lemma SnakeCaseLower(s: string)
    ensures forall i :: 0 <= i < |ToSnakeCase(s)| ==> !IsAsciiUpper(ToSnakeCase(s)[i])
  {
  }

  /** Marking and lowering at once: each capital `X` becomes `_x`, every other character stays. */
  function LowerMarked(s: string): (r: string)
    decreases |s|
  {
    if s == [] then [] else (if IsAsciiUpper(s[0]) then ['_', ToLowerChar(s[0])] else [s[0]]) + LowerMarked(s[1..])
  }

  lemma {:induction false} LowerMarkCapitals(s: string)
    ensures ToLower(MarkCapitals(s)) == LowerMarked(s)
    decreases |s|
  {
    if s != [] {
      LowerMarkCapitals(s[1..]);
      var head := if IsAsciiUpper(s[0]) then ['_', s[0]] else [s[0]];
      var tail := MarkCapitals(s[1..]);
      assert ToLower(head + tail) == ToLower(head) + ToLower(tail);
    }
  }

  /** One more character for every capital, less the dropped leading `_`. */
  function Capitals(s: string): nat
    decreases |s|
  {
    if s == [] then 0 else (if IsAsciiUpper(s[0]) then 1 else 0) + Capitals(s[1..])
  }

  lemma {:induction false} LowerMarkedLength(s: string)
    ensures |LowerMarked(s)| == |s| + Capitals(s)
    decreases |s|
  {
    if s != [] {
      LowerMarkedLength(s[1..]);
    }
  }

  lemma SnakeCaseLength(s: string)
    ensures |ToSnakeCase(s)| == |s| + Capitals(s) - (if s != [] && (IsAsciiUpper(s[0]) || s[0] == '_') then 1 else 0)
  {
    LowerMarkCapitals(s);
    LowerMarkedLength(s);
    if s != [] && !IsAsciiUpper(s[0]) {
      assert LowerMarked(s)[0] == s[0];
    }
  }

  lemma ToUpperLower(c: char)
    requires IsAsciiUpper(c)
    ensures IsAsciiLower(ToLowerChar(c)) && ToUpperChar(ToLowerChar(c)) == c
  {
  }

  /** Without `_` in the name, the camel-case scan undoes the marking exactly. */
  lemma {:induction false} RaiseLowerMarked(s: string)
    requires '_' !in s
    ensures RaiseAfterUnderscores(LowerMarked(s)) == s
    decreases |s|
  {
    if s != [] {
      assert forall x :: x in s[1..] ==> x in s;
      RaiseLowerMarked(s[1..]);
      var t := LowerMarked(s[1..]);
      if IsAsciiUpper(s[0]) {
        ToUpperLower(s[0]);
        var m := ['_', ToLowerChar(s[0])] + t;
        assert MatchAt(m, 0);
        assert m[2..] == t;
      } else {
        var m := [s[0]] + t;
        assert s[0] in s;
        assert !MatchAt(m, 0);
        assert m[1..] == t;
      }
      HeadTail(s);
    }
  }

  /**
   * For a name without `_`, converting to snake case and back to camel case
   * gives the name with its first letter upper-cased.
   */
  lemma SnakeThenCamel(s: string)
    requires '_' !in s
    ensures ToCamelCase(ToSnakeCase(s)) == RaiseFirst(s)
  {
    LowerMarkCapitals(s);
    if s != [] && IsAsciiUpper(s[0]) {
      SnakeOfCapital(s);
    } else {
      RaiseLowerMarked(s);
      if s != [] {
        assert s[0] in s;
        assert LowerMarked(s)[0] == s[0];
      }
    }
  }

  lemma SnakeOfCapital(s: string)
    requires '_' !in s && s != [] && IsAsciiUpper(s[0])
    ensures RaiseAfterUnderscores(ToSnakeCase(s)) == [ToLowerChar(s[0])] + s[1..]
  {
    LowerMarkCapitals(s);
    ToUpperLower(s[0]);
    var t := LowerMarked(s[1..]);
    assert forall x :: x in s[1..] ==> x in s;
    RaiseLowerMarked(s[1..]);
    var snake := [ToLowerChar(s[0])] + t;
    assert ToSnakeCase(s) == snake;
    assert !MatchAt(snake, 0);
    assert snake[1..] == t;
  }
}
