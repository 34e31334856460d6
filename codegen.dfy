/**
 * The class and struct generators of the conversion tool (js/convert.js,
 * lines 188-474): Java, Go, Ruby, C# and Rust source text for a parsed class
 * and the nested classes found with it. The generators of one conversion
 * share a `generated` set of class names, so each class is written at most
 * once.
 */
module Codegen {
  import opened Json
  import opened Naming
  import opened Wrappers
  import TN = TypeNames
  import opened Classes

  /** The target language; C# carries the indent it writes every line with. */
  datatype Target = JavaCode | GolangCode | RubyCode | CSharpCode(indent: string) | RustCode

  // ---------------------------------------------------------------- the field types

  /** `field.isArray`, where the source leaves it undefined for a nested object. */
  predicate IsArrayFlag(f: Field) {
    (f.kind.Plain? && f.kind.isArray) || f.kind.ObjectArray?
  }

  /** `${field.type}`: the class name, or "null" where the field has none. */
  function TypeText(t: Option<string>): string {
    if t.Some? then t.value else "null"
  }

  /** `getXType(field.value, field.isArray)` of language `lang`. */
  function MapperType(lang: TN.Lang, v: Json, isArray: bool): string {
    match lang
    case Java => TN.JavaType(v, isArray)
    case Golang => TN.GolangType(v, isArray)
    case CSharp => TN.CSharpType(v, isArray)
    case Rust => TN.RustType(v, isArray)
  }

  /** `field.isObject ? field.type : (field.isObjectArray ? List<field.type> : mapped)`, with the list spelled per language. */
  function FieldType(lang: TN.Lang, f: Field): string {
    match f.kind
    case NestedObject => TypeText(f.typeName)
    case ObjectArray => TN.ListOpen(lang) + TypeText(f.typeName) + TN.ListClose(lang)
    case Plain(_) => MapperType(lang, f.value, IsArrayFlag(f))
  }

  // ---------------------------------------------------------------- the lines of one class

  /** The lines `line` makes for the first `n` fields, in field order. */
  function Each(fields: seq<Field>, n: nat, line: Field -> string): string
    requires n <= |fields|
  {
    if n == 0 then "" else Each(fields, n - 1, line) + line(fields[n - 1])
  }

  function JavaDecl(f: Field): string {
    "    private " + FieldType(TN.Java, f) + " " + ToCamelCase(f.originalKey) + ";\n"
  }

  function JavaAccessors(f: Field): string {
    var ty, name, m := FieldType(TN.Java, f), ToCamelCase(f.originalKey), ToPascalCase(f.originalKey);
    "    public " + ty + " get" + m + "() {\n"
    + "        return " + name + ";\n"
    + "    }\n\n"
    + "    public void set" + m + "(" + ty + " " + name + ") {\n"
    + "        this." + name + " = " + name + ";\n"
    + "    }\n\n"
  }

  function JavaOpen(className: string): string {
    "public class " + className + " {\n\n"
  }

  function GolangField(f: Field): string {
    "    " + ToPascalCase(f.originalKey) + " " + FieldType(TN.Golang, f) + " `json:\"" + f.originalKey + "\"`\n"
  }

  function GolangOpen(className: string): string {
    "type " + className + " struct {\n"
  }

  /** `attr_accessor`'s argument list: `parsed.fields.map(f => ':' + snake).join(', ')`. */
  function AttrNames(fields: seq<Field>): string {
    if fields == [] then ""
    else if |fields| == 1 then ":" + ToSnakeCase(fields[0].originalKey)
    else AttrNames(fields[..|fields| - 1]) + ", " + ":" + ToSnakeCase(fields[|fields| - 1].originalKey)
  }

  function RubyOpen(className: string, fields: seq<Field>): string {
    "class " + className + "\n" + "    attr_accessor " + AttrNames(fields) + "\n\n" + "    def initialize(data = {})\n"
  }

  function RubyAssign(f: Field): string {
    "        @" + ToSnakeCase(f.originalKey) + " = data['" + f.originalKey + "'] || data[:" + f.originalKey + "]\n"
  }

  function RubyPair(f: Field): string {
    "            '" + f.originalKey + "' => @" + ToSnakeCase(f.originalKey) + ",\n"
  }

  const RubyMiddle: string := "    end\n\n" + "    def to_json(*args)\n" + "        {\n"
  const RubyClose: string := "        }.to_json(*args)\n" + "    end\n" + "end\n"

  function CSharpOpen(indent: string, className: string): string {
    indent + "public class " + className + "\n" + indent + "{\n"
  }

  function CSharpProperty(indent: string): Field -> string {
    (f: Field) => indent + "    [JsonProperty(\"" + f.originalKey + "\")]\n"
      + indent + "    public " + FieldType(TN.CSharp, f) + " " + ToPascalCase(f.originalKey) + " { get; set; }\n\n"
  }

  const RustOpenLine: string := "#[derive(Debug, Serialize, Deserialize)]\n"

  function RustOpen(className: string): string {
    RustOpenLine + "pub struct " + className + " {\n"
  }

  function RustField(f: Field): string {
    "    #[serde(rename = \"" + f.originalKey + "\")]\n"
    + "    pub " + ToSnakeCase(f.originalKey) + ": " + FieldType(TN.Rust, f) + ",\n"
  }

  function JavaBlock(c: ParsedClass): string {
    var fs := c.fields;
    JavaOpen(c.className) + Each(fs, |fs|, JavaDecl) + "\n" + Each(fs, |fs|, JavaAccessors) + "}\n"
  }

  function GolangBlock(c: ParsedClass): string {
    var fs := c.fields;
    GolangOpen(c.className) + Each(fs, |fs|, GolangField) + "}\n"
  }

  function RubyBlock(c: ParsedClass): string {
    var fs := c.fields;
    RubyOpen(c.className, fs) + Each(fs, |fs|, RubyAssign) + RubyMiddle + Each(fs, |fs|, RubyPair) + RubyClose
  }

  function CSharpBlock(indent: string, c: ParsedClass): string {
    var fs := c.fields;
    CSharpOpen(indent, c.className) + Each(fs, |fs|, CSharpProperty(indent)) + indent + "}\n"
  }

  function RustBlock(c: ParsedClass): string {
    var fs := c.fields;
    RustOpen(c.className) + Each(fs, |fs|, RustField) + "}\n"
  }

  /** The code one generator call writes for its own class, before the nested classes; never empty. */
  function Block(t: Target, c: ParsedClass): (r: string)
    ensures |r| > 0
  {
    match t
    case JavaCode => JavaBlock(c)
    case GolangCode => GolangBlock(c)
    case RubyCode => RubyBlock(c)
    case CSharpCode(indent) => CSharpBlock(indent, c)
    case RustCode => RustBlock(c)
  }

  /** One more line after the first `i`. */
  lemma EachNext(prefix: string, fields: seq<Field>, i: nat, line: Field -> string)
    requires i < |fields|
    ensures prefix + Each(fields, i + 1, line) == prefix + Each(fields, i, line) + line(fields[i])
  {
  }

  // ---------------------------------------------------------------- what a call writes and claims

  /** The code written, the `generated` set afterwards, and the classes written, in order. */
  datatype Emission = Emission(code: string, generated: set<string>, emitted: seq<ParsedClass>)

  /** What the nested loop decides, without the code: the names claimed and the classes written. */
  datatype Claims = Claims(generated: set<string>, emitted: seq<ParsedClass>)

  /** `generateX(parsed, nested, generated)`. */
  function Generate(t: Target, parsed: ParsedClass, nested: seq<ParsedClass>, generated: set<string>): Emission {
    if parsed.className in generated then Emission("", generated, [])
    else
      var r := NestedClaims(nested, |nested|, generated + {parsed.className});
      Emission(Block(t, parsed) + Separated(t, r.emitted), r.generated, [parsed] + r.emitted)
  }

  /**
   * The loop over the first `n` nested classes: a class is written when its
   * name is non-empty (the `nested.className` test) and not yet generated.
   */
  function NestedClaims(nested: seq<ParsedClass>, n: nat, generated: set<string>): Claims
    requires n <= |nested|
  {
    if n == 0 then Claims(generated, [])
    else
      var r := NestedClaims(nested, n - 1, generated);
      var c := nested[n - 1];
      if c.className != "" && c.className !in r.generated then Claims(r.generated + {c.className}, r.emitted + [c])
      else r
  }

  /** The code of the classes the loop writes: each block after a blank line, in order. */
  function Separated(t: Target, classes: seq<ParsedClass>): string {
    if classes == [] then "" else Separated(t, classes[..|classes| - 1]) + ("\n" + Block(t, classes[|classes| - 1]))
  }

  /** A call with no nested classes writes its class's block, unless the name was generated before. */
  lemma GenerateAlone(t: Target, c: ParsedClass, generated: set<string>)
    ensures Generate(t, c, [], generated)
      == if c.className in generated then Emission("", generated, []) else Emission(Block(t, c), generated + {c.className}, [c])
  {
  }

  /** One more turn of the loop. */
  lemma ClaimsNext(nested: seq<ParsedClass>, i: nat, generated: set<string>)
    requires i < |nested|
    ensures var r := NestedClaims(nested, i, generated);
      var c := nested[i];
      NestedClaims(nested, i + 1, generated)
        == if c.className != "" && c.className !in r.generated then Claims(r.generated + {c.className}, r.emitted + [c])
           else r
  {
  }

  /** The code one more written class appends. */
  lemma SeparatedSnoc(t: Target, classes: seq<ParsedClass>, c: ParsedClass)
    ensures Separated(t, classes + [c]) == Separated(t, classes) + ("\n" + Block(t, c))
  {
    var cs := classes + [c];
    assert cs[..|cs| - 1] == classes;
  }

  /** A call whose class was not generated before writes its block, then the nested loop's code. */
  lemma GenerateFresh(t: Target, parsed: ParsedClass, nested: seq<ParsedClass>, generated: set<string>)
    requires parsed.className !in generated
    ensures var r := NestedClaims(nested, |nested|, generated + {parsed.className});
      Generate(t, parsed, nested, generated).code == Block(t, parsed) + Separated(t, r.emitted)
      && Generate(t, parsed, nested, generated).generated == r.generated
  {
  }

  // ---------------------------------------------------------------- the generators

  /** The body of the first field loop of `generateJavaClass` (lines 197-203): one field declaration. */
  method JavaFieldLine(field: Field) returns (line: string)
    ensures line == JavaDecl(field)
  {
    var javaType := TN.JavaType(field.value, IsArrayFlag(field));
    var ty := if field.kind.NestedObject? then TypeText(field.typeName)
      else if field.kind.ObjectArray? then "List<" + TypeText(field.typeName) + ">" else javaType;
    assert ty == FieldType(TN.Java, field);
    var fieldName := ToCamelCase(field.originalKey);
    line := "    private " + ty + " " + fieldName + ";\n";
  }

  /** The body of the field loop of `generateGolangStruct` (lines 268-274): one struct field with its tag. */
  method GolangFieldLine(field: Field) returns (line: string)
    ensures line == GolangField(field)
  {
    var golangType := TN.GolangType(field.value, IsArrayFlag(field));
    var ty := if field.kind.NestedObject? then TypeText(field.typeName)
      else if field.kind.ObjectArray? then "[]" + TypeText(field.typeName) else golangType;
    assert ty == FieldType(TN.Golang, field);
    var fieldName := ToPascalCase(field.originalKey);
    var jsonTag := field.originalKey;
    line := "    " + fieldName + " " + ty + " `json:\"" + jsonTag + "\"`\n";
  }

  /** The body of the field loop of `generateRustStruct` (lines 453-460): one struct field with its serde name. */
  method RustFieldLine(field: Field) returns (line: string)
    ensures line == RustField(field)
  {
    var rustType := TN.RustType(field.value, IsArrayFlag(field));
    var ty := if field.kind.NestedObject? then TypeText(field.typeName)
      else if field.kind.ObjectArray? then "Vec<" + TypeText(field.typeName) + ">" else rustType;
    assert ty == FieldType(TN.Rust, field);
    var fieldName := ToSnakeCase(field.originalKey);
    var serdeName := field.originalKey;
    line := "    #[serde(rename = \"" + serdeName + "\")]\n" + "    pub " + fieldName + ": " + ty + ",\n";
  }

  /** A field loop that appends `line(field)` for every field, in order. */
  method AppendLines(prefix: string, fs: seq<Field>, line: Field -> string) returns (code: string)
    ensures code == prefix + Each(fs, |fs|, line)
  {
    code := prefix;
    for i := 0 to |fs|
      invariant code == prefix + Each(fs, i, line)
    {
      EachNext(prefix, fs, i, line);
      code := code + line(fs[i]);
    }
  }

  /** The first field loop of `generateJavaClass`, lines 197-203. */
  method JavaDecls(prefix: string, fs: seq<Field>) returns (code: string)
    ensures code == prefix + Each(fs, |fs|, JavaDecl)
  {
    code := prefix;
    for i := 0 to |fs|
      invariant code == prefix + Each(fs, i, JavaDecl)
    {
      var line := JavaFieldLine(fs[i]);
      EachNext(prefix, fs, i, JavaDecl);
      code := code + line;
    }
  }

  /** The code `generateJavaClass` writes for the class itself, lines 194-222. */
  method WriteJavaClass(parsed: ParsedClass) returns (code: string)
    ensures code == JavaBlock(parsed)
  {
    var fs := parsed.fields;
    code := JavaDecls(JavaOpen(parsed.className), fs);
    code := code + "\n";
    code := AppendLines(code, fs, JavaAccessors);
    code := code + "}\n";
  }

  /** The field loop of `generateGolangStruct`, lines 268-274. */
  method GolangFields(prefix: string, fs: seq<Field>) returns (code: string)
    ensures code == prefix + Each(fs, |fs|, GolangField)
  {
    code := prefix;
    for i := 0 to |fs|
      invariant code == prefix + Each(fs, i, GolangField)
    {
      var line := GolangFieldLine(fs[i]);
      EachNext(prefix, fs, i, GolangField);
      code := code + line;
    }
  }

  /** The code `generateGolangStruct` writes for the struct itself, lines 266-276. */
  method WriteGolangStruct(parsed: ParsedClass) returns (code: string)
    ensures code == GolangBlock(parsed)
  {
    code := GolangFields(GolangOpen(parsed.className), parsed.fields);
    code := code + "}\n";
  }

  /** The code `generateRubyClass` writes for the class itself, lines 319-340. */
  method WriteRubyClass(parsed: ParsedClass) returns (code: string)
    ensures code == RubyBlock(parsed)
  {
    var fs := parsed.fields;
    code := AppendLines(RubyOpen(parsed.className, fs), fs, RubyAssign);
    code := code + RubyMiddle;
    code := AppendLines(code, fs, RubyPair);
    code := code + RubyClose;
  }

  /** The code `generateCSharpClass` writes for the class itself, lines 395-407. */
  method WriteCSharpClass(parsed: ParsedClass, indent: string) returns (code: string)
    ensures code == CSharpBlock(indent, parsed)
  {
    code := AppendLines(CSharpOpen(indent, parsed.className), parsed.fields, CSharpProperty(indent));
    code := code + (indent + "}\n");
  }

  /** The field loop of `generateRustStruct`, lines 453-460. */
  method RustFields(prefix: string, fs: seq<Field>) returns (code: string)
    ensures code == prefix + Each(fs, |fs|, RustField)
  {
    code := prefix;
    for i := 0 to |fs|
      invariant code == prefix + Each(fs, i, RustField)
    {
      var line := RustFieldLine(fs[i]);
      EachNext(prefix, fs, i, RustField);
      code := code + line;
    }
  }

  /** The code `generateRustStruct` writes for the struct itself, lines 450-462. */
  method WriteRustStruct(parsed: ParsedClass) returns (code: string)
    ensures code == RustBlock(parsed)
  {
    code := RustFields(RustOpen(parsed.className), parsed.fields);
    code := code + "}\n";
  }

  /** The `generated` set shared by one conversion. */
  class Generator {
    var generated: set<string>

    constructor ()
      ensures generated == {}
    {
      generated := {};
    }

    /** `generateJavaClass(parsed, nestedClasses, this)`. */
    method GenerateJavaClass(parsed: ParsedClass, nestedClasses: seq<ParsedClass>) returns (code: string)
      modifies this
      ensures code == Generate(JavaCode, parsed, nestedClasses, old(generated)).code
      ensures generated == Generate(JavaCode, parsed, nestedClasses, old(generated)).generated
      decreases |nestedClasses|, 1
    {
      if parsed.className in generated {
        return "";
      }
      generated := generated + {parsed.className};
      code := WriteJavaClass(parsed);
      var rest := GenerateJavaNested(nestedClasses);
      code := code + rest;
      GenerateFresh(JavaCode, parsed, nestedClasses, old(generated));
    }

    /** The loop of `generateJavaClass` over the nested classes (lines 225-232), each generated with none of its own. */
    method GenerateJavaNested(nestedClasses: seq<ParsedClass>) returns (code: string)
      modifies this
      ensures code == Separated(JavaCode, NestedClaims(nestedClasses, |nestedClasses|, old(generated)).emitted)
      ensures generated == NestedClaims(nestedClasses, |nestedClasses|, old(generated)).generated
      decreases |nestedClasses|, 0
    {
      code := "";
      for i := 0 to |nestedClasses|
        invariant code == Separated(JavaCode, NestedClaims(nestedClasses, i, old(generated)).emitted)
        invariant generated == NestedClaims(nestedClasses, i, old(generated)).generated
      {
        var nested := nestedClasses[i];
        ClaimsNext(nestedClasses, i, old(generated));
        SeparatedSnoc(JavaCode, NestedClaims(nestedClasses, i, old(generated)).emitted, nested);
        if nested.className != "" {
          GenerateAlone(JavaCode, nested, generated);
          var nestedCode := GenerateJavaClass(nested, []);
          if nestedCode != "" {
            code := code + ("\n" + nestedCode);
          }
        }
      }
    }

    /** `generateGolangStruct(parsed, nestedClasses, this)`. */
    method GenerateGolangStruct(parsed: ParsedClass, nestedClasses: seq<ParsedClass>) returns (code: string)
      modifies this
      ensures code == Generate(GolangCode, parsed, nestedClasses, old(generated)).code
      ensures generated == Generate(GolangCode, parsed, nestedClasses, old(generated)).generated
      decreases |nestedClasses|, 1
    {
      if parsed.className in generated {
        return "";
      }
      generated := generated + {parsed.className};
      code := WriteGolangStruct(parsed);
      var rest := GenerateGolangNested(nestedClasses);
      code := code + rest;
      GenerateFresh(GolangCode, parsed, nestedClasses, old(generated));
    }

    /** The loop of `generateGolangStruct` over the nested classes (lines 279-286), each generated with none of its own. */
    method GenerateGolangNested(nestedClasses: seq<ParsedClass>) returns (code: string)
      modifies this
      ensures code == Separated(GolangCode, NestedClaims(nestedClasses, |nestedClasses|, old(generated)).emitted)
      ensures generated == NestedClaims(nestedClasses, |nestedClasses|, old(generated)).generated
      decreases |nestedClasses|, 0
    {
      code := "";
      for i := 0 to |nestedClasses|
        invariant code == Separated(GolangCode, NestedClaims(nestedClasses, i, old(generated)).emitted)
        invariant generated == NestedClaims(nestedClasses, i, old(generated)).generated
      {
        var nested := nestedClasses[i];
        ClaimsNext(nestedClasses, i, old(generated));
        SeparatedSnoc(GolangCode, NestedClaims(nestedClasses, i, old(generated)).emitted, nested);
        if nested.className != "" {
          GenerateAlone(GolangCode, nested, generated);
          var nestedCode := GenerateGolangStruct(nested, []);
          if nestedCode != "" {
            code := code + ("\n" + nestedCode);
          }
        }
      }
    }

    /** `generateRubyClass(parsed, nestedClasses, this)`. */
    method GenerateRubyClass(parsed: ParsedClass, nestedClasses: seq<ParsedClass>) returns (code: string)
      modifies this
      ensures code == Generate(RubyCode, parsed, nestedClasses, old(generated)).code
      ensures generated == Generate(RubyCode, parsed, nestedClasses, old(generated)).generated
      decreases |nestedClasses|, 1
    {
      if parsed.className in generated {
        return "";
      }
      generated := generated + {parsed.className};
      code := WriteRubyClass(parsed);
      var rest := GenerateRubyNested(nestedClasses);
      code := code + rest;
      GenerateFresh(RubyCode, parsed, nestedClasses, old(generated));
    }

    /** The loop of `generateRubyClass` over the nested classes (lines 343-350), each generated with none of its own. */
    method GenerateRubyNested(nestedClasses: seq<ParsedClass>) returns (code: string)
      modifies this
      ensures code == Separated(RubyCode, NestedClaims(nestedClasses, |nestedClasses|, old(generated)).emitted)
      ensures generated == NestedClaims(nestedClasses, |nestedClasses|, old(generated)).generated
      decreases |nestedClasses|, 0
    {
      code := "";
      for i := 0 to |nestedClasses|
        invariant code == Separated(RubyCode, NestedClaims(nestedClasses, i, old(generated)).emitted)
        invariant generated == NestedClaims(nestedClasses, i, old(generated)).generated
      {
        var nested := nestedClasses[i];
        ClaimsNext(nestedClasses, i, old(generated));
        SeparatedSnoc(RubyCode, NestedClaims(nestedClasses, i, old(generated)).emitted, nested);
        if nested.className != "" {
          GenerateAlone(RubyCode, nested, generated);
          var nestedCode := GenerateRubyClass(nested, []);
          if nestedCode != "" {
            code := code + ("\n" + nestedCode);
          }
        }
      }
    }

    /** `generateCSharpClass(parsed, nestedClasses, indent, this)`. */
    method GenerateCSharpClass(parsed: ParsedClass, nestedClasses: seq<ParsedClass>, indent: string) returns (code: string)
      modifies this
      ensures code == Generate(CSharpCode(indent), parsed, nestedClasses, old(generated)).code
      ensures generated == Generate(CSharpCode(indent), parsed, nestedClasses, old(generated)).generated
      decreases |nestedClasses|, 1
    {
      if parsed.className in generated {
        return "";
      }
      generated := generated + {parsed.className};
      code := WriteCSharpClass(parsed, indent);
      var rest := GenerateCSharpNested(nestedClasses, indent);
      code := code + rest;
      GenerateFresh(CSharpCode(indent), parsed, nestedClasses, old(generated));
    }

    /** The loop of `generateCSharpClass` over the nested classes (lines 410-417), each generated with none of its own. */
    method GenerateCSharpNested(nestedClasses: seq<ParsedClass>, indent: string) returns (code: string)
      modifies this
      ensures code == Separated(CSharpCode(indent), NestedClaims(nestedClasses, |nestedClasses|, old(generated)).emitted)
      ensures generated == NestedClaims(nestedClasses, |nestedClasses|, old(generated)).generated
      decreases |nestedClasses|, 0
    {
      code := "";
      for i := 0 to |nestedClasses|
        invariant code == Separated(CSharpCode(indent), NestedClaims(nestedClasses, i, old(generated)).emitted)
        invariant generated == NestedClaims(nestedClasses, i, old(generated)).generated
      {
        var nested := nestedClasses[i];
        ClaimsNext(nestedClasses, i, old(generated));
        SeparatedSnoc(CSharpCode(indent), NestedClaims(nestedClasses, i, old(generated)).emitted, nested);
        if nested.className != "" {
          GenerateAlone(CSharpCode(indent), nested, generated);
          var nestedCode := GenerateCSharpClass(nested, [], indent);
          if nestedCode != "" {
            code := code + ("\n" + nestedCode);
          }
        }
      }
    }

    /** `generateRustStruct(parsed, nestedClasses, this)`. */
    method GenerateRustStruct(parsed: ParsedClass, nestedClasses: seq<ParsedClass>) returns (code: string)
      modifies this
      ensures code == Generate(RustCode, parsed, nestedClasses, old(generated)).code
      ensures generated == Generate(RustCode, parsed, nestedClasses, old(generated)).generated
      decreases |nestedClasses|, 1
    {
      if parsed.className in generated {
        return "";
      }
      generated := generated + {parsed.className};
      code := WriteRustStruct(parsed);
      var rest := GenerateRustNested(nestedClasses);
      code := code + rest;
      GenerateFresh(RustCode, parsed, nestedClasses, old(generated));
    }

    /** The loop of `generateRustStruct` over the nested classes (lines 465-472), each generated with none of its own. */
    method GenerateRustNested(nestedClasses: seq<ParsedClass>) returns (code: string)
      modifies this
      ensures code == Separated(RustCode, NestedClaims(nestedClasses, |nestedClasses|, old(generated)).emitted)
      ensures generated == NestedClaims(nestedClasses, |nestedClasses|, old(generated)).generated
      decreases |nestedClasses|, 0
    {
      code := "";
      for i := 0 to |nestedClasses|
        invariant code == Separated(RustCode, NestedClaims(nestedClasses, i, old(generated)).emitted)
        invariant generated == NestedClaims(nestedClasses, i, old(generated)).generated
      {
        var nested := nestedClasses[i];
        ClaimsNext(nestedClasses, i, old(generated));
        SeparatedSnoc(RustCode, NestedClaims(nestedClasses, i, old(generated)).emitted, nested);
        if nested.className != "" {
          GenerateAlone(RustCode, nested, generated);
          var nestedCode := GenerateRustStruct(nested, []);
          if nestedCode != "" {
            code := code + ("\n" + nestedCode);
          }
        }
      }
    }
  }

  // ---------------------------------------------------------------- each class at most once

  /** The non-empty names among the first `n` nested classes. */
  function NonEmptyNames(nested: seq<ParsedClass>, n: nat): set<string>
    requires n <= |nested|
  {
    set k | 0 <= k < n && nested[k].className != "" :: nested[k].className
  }

  lemma NonEmptyNamesNext(nested: seq<ParsedClass>, n: nat)
    requires n < |nested|
    ensures NonEmptyNames(nested, n + 1)
      == NonEmptyNames(nested, n) + (if nested[n].className != "" then {nested[n].className} else {})
  {
    var a, b := NonEmptyNames(nested, n + 1), NonEmptyNames(nested, n);
    forall x | x in a
      ensures x in b + (if nested[n].className != "" then {nested[n].className} else {})
    {
      var k :| 0 <= k < n + 1 && nested[k].className != "" && nested[k].className == x;
      if k < n {
        assert x in b;
      }
    }
  }

  /** The loop claims exactly the non-empty names it meets, whether it writes them or finds them taken. */
  lemma {:induction false} NestedGenerated(nested: seq<ParsedClass>, n: nat, generated: set<string>)
    requires n <= |nested|
    ensures NestedClaims(nested, n, generated).generated == generated + NonEmptyNames(nested, n)
  {
    if n > 0 {
      NestedGenerated(nested, n - 1, generated);
      ClaimsNext(nested, n - 1, generated);
      NonEmptyNamesNext(nested, n - 1);
    }
  }

  lemma NamesSnoc(a: seq<ParsedClass>, x: ParsedClass)
    ensures Names(a + [x]) == Names(a) + {x.className}
  {
    var cs := a + [x];
    forall n | n in Names(cs)
      ensures n in Names(a) + {x.className}
    {
      var i :| 0 <= i < |cs| && cs[i].className == n;
      if i < |a| {
        assert cs[i] == a[i];
      }
    }
    forall n | n in Names(a)
      ensures n in Names(cs)
    {
      var i :| 0 <= i < |a| && a[i].className == n;
      assert cs[i] == a[i];
    }
    assert cs[|a|] == x;
  }

  lemma FreshSnoc(a: seq<ParsedClass>, x: ParsedClass, before: set<string>, after: set<string>)
    requires Fresh(a, before, after) && x.className !in after
    ensures Fresh(a + [x], before, after + {x.className})
  {
    NamesSnoc(a, x);
    var cs := a + [x];
    forall i | 0 <= i < |a|
      ensures cs[i].className != x.className
    {
      assert cs[i] == a[i];
      assert a[i].className in Names(a);
    }
  }

  /** The classes the loop writes have distinct names not generated before, and exactly their names are added. */
  lemma {:induction false} NestedFresh(nested: seq<ParsedClass>, n: nat, generated: set<string>)
    requires n <= |nested|
    ensures Fresh(NestedClaims(nested, n, generated).emitted, generated, NestedClaims(nested, n, generated).generated)
  {
    if n == 0 {
      FreshEmpty(generated);
    } else {
      var r := NestedClaims(nested, n - 1, generated);
      NestedFresh(nested, n - 1, generated);
      ClaimsNext(nested, n - 1, generated);
      if nested[n - 1].className != "" && nested[n - 1].className !in r.generated {
        FreshSnoc(r.emitted, nested[n - 1], generated, r.generated);
      }
    }
  }

  lemma FreshCons(x: ParsedClass, b: seq<ParsedClass>, before: set<string>, after: set<string>)
    requires x.className !in before && Fresh(b, before + {x.className}, after)
    ensures Fresh([x] + b, before, after)
  {
    var cs := [x] + b;
    forall i | 0 <= i < |cs|
      ensures cs[i].className !in before
      ensures 0 < i ==> cs[i].className != x.className
    {
      if 0 < i {
        assert cs[i] == b[i - 1];
      }
    }
    forall i, j | 0 <= i < j < |cs|
      ensures cs[i].className != cs[j].className
    {
      assert cs[j] == b[j - 1];
      if 0 < i {
        assert cs[i] == b[i - 1];
      }
    }
    forall n | n in Names(cs)
      ensures n in Names(b) + {x.className}
    {
      var i :| 0 <= i < |cs| && cs[i].className == n;
      if 0 < i {
        assert cs[i] == b[i - 1];
      }
    }
    forall n | n in Names(b)
      ensures n in Names(cs)
    {
      var i :| 0 <= i < |b| && b[i].className == n;
      assert cs[i + 1] == b[i];
    }
    assert cs[0] == x;
  }

  /**
   * A generator call writes each class at most once: the classes written
   * have distinct names, none generated before, exactly their names are
   * added, and the code is their blocks in order; it writes nothing exactly
   * when its own class was generated before.
   */
  lemma GenerateOnce(t: Target, parsed: ParsedClass, nested: seq<ParsedClass>, generated: set<string>)
    ensures var e := Generate(t, parsed, nested, generated);
      Fresh(e.emitted, generated, e.generated)
    ensures var e := Generate(t, parsed, nested, generated);
      e.code == if e.emitted == [] then "" else Block(t, e.emitted[0]) + Separated(t, e.emitted[1..])
    ensures Generate(t, parsed, nested, generated).code == "" <==> parsed.className in generated
  {
    if parsed.className !in generated {
      var g := generated + {parsed.className};
      var r := NestedClaims(nested, |nested|, g);
      NestedFresh(nested, |nested|, g);
      FreshCons(parsed, r.emitted, generated, r.generated);
    } else {
      FreshEmpty(generated);
    }
  }

  /** Calling a generator again on the same shared set writes nothing and claims nothing more. */
  lemma GenerateTwice(t: Target, parsed: ParsedClass, nested: seq<ParsedClass>, again: seq<ParsedClass>, generated: set<string>)
    ensures var g := Generate(t, parsed, nested, generated).generated;
      Generate(t, parsed, again, g) == Emission("", g, [])
  {
    if parsed.className !in generated {
      NestedGenerated(nested, |nested|, generated + {parsed.className});
    }
  }

  // ---------------------------------------------------------------- which classes a conversion writes

  /** The first `n` classes whose name is non-empty and not in `taken`, in order. */
  function Written(classes: seq<ParsedClass>, n: nat, taken: set<string>): seq<ParsedClass>
    requires n <= |classes|
  {
    if n == 0 then []
    else
      var c := classes[n - 1];
      Written(classes, n - 1, taken) + (if c.className != "" && c.className !in taken then [c] else [])
  }

  /** Names distinct from one another. */
  predicate DistinctNames(classes: seq<ParsedClass>) {
    forall i, j :: 0 <= i < j < |classes| ==> classes[i].className != classes[j].className
  }

  /** When the nested classes have distinct names, the loop writes every one whose name is non-empty and not taken. */
  lemma {:induction false} NestedWritesAll(nested: seq<ParsedClass>, n: nat, generated: set<string>)
    requires n <= |nested| && DistinctNames(nested)
    ensures NestedClaims(nested, n, generated).emitted == Written(nested, n, generated)
  {
    if n > 0 {
      NestedWritesAll(nested, n - 1, generated);
      ClaimsNext(nested, n - 1, generated);
      NestedGenerated(nested, n - 1, generated);
      var c := nested[n - 1];
      assert forall k :: 0 <= k < n - 1 ==> nested[k].className != c.className;
    }
  }

  /**
   * A conversion parses from an empty `generatedClasses` and generates from an
   * empty `generated` set: it writes the root class, then every nested class
   * in the order the parse found them, except those with an empty name
   * (a key "" or "s") and one named like the root class, which the root hides.
   */
  lemma ConversionWrites(t: Target, v: Json, className: string, parsed: ParsedClass)
    requires ParseClasses(v, className, {}).result == Success(parsed)
    ensures parsed.className == className
    ensures Generate(t, parsed, parsed.classes, {}).emitted == [parsed] + Written(parsed.classes, |parsed.classes|, {className})
  {
    ParsedDistinct(v, className, parsed);
    WritesAll(t, parsed);
  }

  /** The nested classes of a parse have distinct names. */
  lemma ParsedDistinct(v: Json, className: string, parsed: ParsedClass)
    requires ParseClasses(v, className, {}).result == Success(parsed)
    ensures parsed.className == className && DistinctNames(parsed.classes)
  {
    ParseFresh(v, className, {});
    ParsedFields(v, className, {});
  }

  lemma WritesAll(t: Target, parsed: ParsedClass)
    requires DistinctNames(parsed.classes)
    ensures Generate(t, parsed, parsed.classes, {}).emitted == [parsed] + Written(parsed.classes, |parsed.classes|, {parsed.className})
  {
    var none: set<string> := {};
    assert none + {parsed.className} == {parsed.className};
    NestedWritesAll(parsed.classes, |parsed.classes|, {parsed.className});
    GenerateClaims(t, parsed, parsed.classes, none);
  }

  lemma GenerateClaims(t: Target, parsed: ParsedClass, nested: seq<ParsedClass>, generated: set<string>)
    requires parsed.className !in generated
    ensures Generate(t, parsed, nested, generated).emitted == [parsed] + NestedClaims(nested, |nested|, generated + {parsed.className}).emitted
  {
  }

  // ---------------------------------------------------------------- the fields of one class

  /** Line `k` comes right after the lines of the fields before it: `Each` writes every field's line, in order. */
  lemma {:induction false} EachPrefix(fields: seq<Field>, k: nat, n: nat, line: Field -> string)
    requires k < n <= |fields|
    ensures Each(fields, k, line) + line(fields[k]) <= Each(fields, n, line)
  {
    if k < n - 1 {
      EachPrefix(fields, k, n - 1, line);
    }
  }

  /**
   * The type a generator gives the field of an entry: the mapper's type,
   * one list wrapper per level of first elements, for an entry that makes
   * no nested class; the nested class's name for an object; a list of it
   * for an array of objects.
   */
  lemma FieldTypeOfEntry(lang: TN.Lang, e: Member)
    ensures !NeedsClass(e.value) ==> FieldType(lang, FieldFor(e)) == TN.Nested(lang, e.value)
    ensures e.value.Obj? ==> FieldType(lang, FieldFor(e)) == ClassNameFor(e)
    ensures NeedsClass(e.value) && e.value.Arr? ==> FieldType(lang, FieldFor(e)) == TN.ListOpen(lang) + ClassNameFor(e) + TN.ListClose(lang)
  {
    if !NeedsClass(e.value) {
      var v := e.value;
      if v.Arr? {
        TN.ArrayFlagAgrees(v);
      }
      assert MapperType(lang, v, false) == TN.TypeFor(lang, v);
      TN.TypeForNested(lang, v);
    }
  }
}
