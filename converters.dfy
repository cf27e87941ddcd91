/** The two converters `jsonToCSharp` and `jsonToPythonPydantic`: the
    recursive class generators that fill the registry in place, the
    drivers that branch on the root's shape, and what their output is. */
module Converters {
  import opened JsonValue
  import opened Naming
  import opened TypeMapping
  import opened ClassMap
  import opened ClassWalk
  import opened Wrappers

  /** The root class name callers get when they give none. */
  const DefaultRootClassName := "Root"

  /** The text of the TypeError `Object.entries(null)` throws, as V8 words
      it. */
  const NullToObjectError := "TypeError: Cannot convert undefined or null to object"

  /** The import header of every Pydantic output. Long literals are
      written as concatenations of short pieces, which keeps equalities
      between texts cheap for the verifier. */
  const PythonHeader := "from typing " + "import List, Optional, Any\n" + "from pydantic import BaseModel\n\n"

  /** The failure markers, each a comment line. */
  const CSharpErrorPrefix := "// " + "Error parsing JSON: "
  const PythonErrorPrefix := "# " + "Error parsing JSON: "
  const CSharpInvalidMarker := "// " + "Invalid JSON object"
  const PythonInvalidMarker := "# " + "Invalid JSON object"
  const CSharpPrimitivesMarker := "// " + "Root is an array of primitives" + ", cannot generate class"
  const PythonPrimitivesMarker := "# " + "Root is an array of primitives"

  /** `Array.prototype.reverse` */
  function Reverse(s: seq<string>): (r: seq<string>)
    ensures |r| == |s|
    ensures forall i :: 0 <= i < |s| ==> r[i] == s[|s| - 1 - i]
  {
    if s == [] then [] else Reverse(s[1..]) + [s[0]]
  }

  /** `Array.prototype.join(sep)` */
  function Join(parts: seq<string>, sep: string): string {
    if |parts| == 0 then ""
    else if |parts| == 1 then parts[0]
    else parts[0] + sep + Join(parts[1..], sep)
  }

  /** Joining one more part adds one separator and that part. With
      `Join([], sep) == ""` and `Join([p], sep) == p` this fixes `Join`. */
  lemma {:induction false} JoinAppend(parts: seq<string>, x: string, sep: string)
    requires |parts| > 0
    ensures Join(parts + [x], sep) == Join(parts, sep) + sep + x
    decreases |parts|
  {
    var p := parts + [x];
    if |parts| == 1 {
      assert p[1..] == [x];
    } else {
      assert p[1..] == parts[1..] + [x];
      JoinAppend(parts[1..], x, sep);
      var j := Join(parts[1..], sep);
      calc {
        Join(p, sep);
        parts[0] + sep + Join(parts[1..] + [x], sep);
        parts[0] + sep + (j + sep + x);
        { assert parts[0] + sep + (j + sep + x) == parts[0] + sep + j + sep + x; }
        Join(parts, sep) + sep + x;
      }
    }
  }

  /** The prefix of every successful output. */
  function Preamble(lang: Language): string {
    match lang
    case CSharp => ""
    case Python => PythonHeader
  }

  /** The comment opener of every failure marker. */
  function Comment(lang: Language): string {
    match lang
    case CSharp => "// "
    case Python => "# "
  }

  function InvalidMarker(lang: Language): string {
    match lang
    case CSharp => CSharpInvalidMarker
    case Python => PythonInvalidMarker
  }

  function PrimitivesMarker(lang: Language): string {
    match lang
    case CSharp => CSharpPrimitivesMarker
    case Python => PythonPrimitivesMarker
  }

  /** What the `catch` returns for an exception whose text is `e`. */
  function ErrorMarker(lang: Language, e: string): string {
    match lang
    case CSharp => CSharpErrorPrefix + e
    case Python => PythonErrorPrefix + e
  }

  /** The registry's bodies, last registered first, with a blank line
      between two of them, after the preamble. */
  function Emit(lang: Language, reg: Registry): string {
    Preamble(lang) + Join(Reverse(Bodies(reg)), "\n\n")
  }

  /** The string a converter returns. */
  function Convert(lang: Language, input: ParseOutcome, rootClassName: string): string {
    match input
    case ParseFailed(e) => ErrorMarker(lang, e)
    case Parsed(parsed) =>
      if !IsCompound(parsed) then InvalidMarker(lang)
      else if parsed.Arr? && !(|parsed.items| > 0 && IsTypeofObject(parsed.items[0])) then PrimitivesMarker(lang)
      else
        var root := if parsed.Arr? then parsed.items[0] else parsed;
        if root.Null? then ErrorMarker(lang, NullToObjectError)
        else Emit(lang, WalkClass(lang, root, rootClassName, []))
  }

  /** The value a converter walks under the root class name, when the
      root has a shape it can generate a class from. */
  function RootClassValue(input: ParseOutcome): Option<Json> {
    match input
    case ParseFailed(_) => None
    case Parsed(parsed) =>
      if parsed.Obj? then Some(parsed)
      else if IsArrayOfCompound(parsed) then Some(parsed.items[0])
      else None
  }

  /** `generateClass`: walks `obj` under `className` and registers its C#
      class after all the classes nested in it. `ok` is false when
      `Object.entries(null)` throws. */
  method GenerateClass(classes: ClassRegistry, obj: Json, className: string) returns (ok: bool)
    requires IsTypeofObject(obj)
    modifies classes
    ensures ok == !(obj.Null? && className !in Names(old(classes.entries)))
    ensures classes.entries ==
      if obj.Null? then old(classes.entries) else WalkClass(CSharp, obj, className, old(classes.entries))
    decreases obj, 1
  {
    if classes.Has(className) {
      return true;
    }
    if obj.Null? {
      return false;
    }
    var classContent := "public class " + className + "\n{\n";
    assert classContent == ClassContent(CSharp, className, obj, 0);
    var entries := Entries(obj);
    ghost var reg0 := classes.entries;
    for i := 0 to |entries|
      invariant classContent == ClassContent(CSharp, className, obj, i)
      invariant classes.entries == WalkPrefix(CSharp, obj, i, reg0)
    {
      var key, value := entries[i].0, entries[i].1;
      var propertyName := ToPascalCase(key);
      var typeName := CSharpPropertyType(classes, key, value);
      classContent := classContent + CSharpLine(typeName, propertyName);
      LoopTurn(CSharp, className, obj, i, reg0);
    }
    classContent := classContent + "}";
    LoopDone(CSharp, className, obj, reg0, classContent);
    classes.Set(className, classContent);
    return true;
  }

  /** One turn of the property loop adds the entry's line to the content
      and walks the entry's value. */
  lemma LoopTurn(lang: Language, name: string, v: Json, i: nat, reg: Registry)
    requires IsCompound(v) && i < |Entries(v)|
    ensures ClassContent(lang, name, v, i + 1) == ClassContent(lang, name, v, i) + PropertyLine(lang, Entries(v)[i].0, Entries(v)[i].1)
    ensures WalkPrefix(lang, v, i + 1, reg) == WalkProperty(lang, Entries(v)[i].0, Entries(v)[i].1, WalkPrefix(lang, v, i, reg))
  {
  }

  /** After the last turn, setting the finished body completes the walk
      of a class not registered before it. */
  lemma LoopDone(lang: Language, name: string, v: Json, reg: Registry, body: string)
    requires IsCompound(v) && name !in Names(reg)
    requires body == ClassBody(lang, name, v)
    ensures Assign(WalkPrefix(lang, v, |Entries(v)|, reg), name, body) == WalkClass(lang, v, name, reg)
  {
  }

  /** One turn of the property loop of `generateClass`: registers the class
      the property's value nests, if any, and gives the property's type. */
  method CSharpPropertyType(classes: ClassRegistry, key: string, value: Json) returns (typeName: string)
    modifies classes
    ensures typeName == PropertyType(CSharp, key, value)
    ensures classes.entries == WalkProperty(CSharp, key, value, old(classes.entries))
    decreases value, 2
  {
    typeName := CSharpType(value);
    if value.Obj? {
      var nestedClassName := ToPascalCase(key);
      typeName := nestedClassName;
      var _ := GenerateClass(classes, value, nestedClassName);
    } else if value.Arr? && |value.items| > 0 && IsTypeofObject(value.items[0]) && !value.items[0].Null? {
      var nestedClassName := ToPascalCase(if EndsWithS(key) then key[..|key| - 1] else key + "Item");
      assert nestedClassName == ItemClassName(key);
      typeName := "List<" + nestedClassName + ">";
      var _ := GenerateClass(classes, value.items[0], nestedClassName);
    }
  }

  /** `generateModel`: walks `obj` under `className` and registers its
      Pydantic model after all the models nested in it. `ok` is false
      when `Object.entries(null)` throws. */
  method GenerateModel(classes: ClassRegistry, obj: Json, className: string) returns (ok: bool)
    requires IsTypeofObject(obj)
    modifies classes
    ensures ok == !(obj.Null? && className !in Names(old(classes.entries)))
    ensures classes.entries ==
      if obj.Null? then old(classes.entries) else WalkClass(Python, obj, className, old(classes.entries))
    decreases obj, 1
  {
    if classes.Has(className) {
      return true;
    }
    if obj.Null? {
      return false;
    }
    var classContent := "class " + className + "(BaseModel):\n";
    assert classContent == ClassContent(Python, className, obj, 0);
    var entries := Entries(obj);
    ghost var reg0 := classes.entries;
    if |entries| == 0 {
      classContent := classContent + "    pass\n";
      LoopDone(Python, className, obj, reg0, classContent);
      classes.Set(className, classContent);
      return true;
    }
    for i := 0 to |entries|
      invariant classContent == ClassContent(Python, className, obj, i)
      invariant classes.entries == WalkPrefix(Python, obj, i, reg0)
    {
      var key, value := entries[i].0, entries[i].1;
      var typeName := PythonFieldType(classes, key, value);
      classContent := classContent + PythonLine(key, typeName);
      LoopTurn(Python, className, obj, i, reg0);
    }
    LoopDone(Python, className, obj, reg0, classContent);
    classes.Set(className, classContent);
    return true;
  }

  /** One turn of the property loop of `generateModel`: registers the
      model the field's value nests, if any, and gives the field's type,
      with `float` narrowed to `int` for an integral number. */
  method PythonFieldType(classes: ClassRegistry, key: string, value: Json) returns (typeName: string)
    modifies classes
    ensures typeName == PropertyType(Python, key, value)
    ensures classes.entries == WalkProperty(Python, key, value, old(classes.entries))
    decreases value, 2
  {
    typeName := PythonType(value);
    if value.Obj? {
      var nestedClassName := ToPascalCase(key);
      typeName := nestedClassName;
      var _ := GenerateModel(classes, value, nestedClassName);
    } else if value.Arr? && |value.items| > 0 && IsTypeofObject(value.items[0]) && !value.items[0].Null? {
      var nestedClassName := ToPascalCase(if EndsWithS(key) then key[..|key| - 1] else key + "Item");
      assert nestedClassName == ItemClassName(key);
      typeName := "List[" + nestedClassName + "]";
      var _ := GenerateModel(classes, value.items[0], nestedClassName);
    }
    if value.Num? && value.isInteger {
      if typeName == "float" {
        typeName := "int";
      }
    }
  }

  /** `jsonToCSharp` */
  method JsonToCSharp(jsonObj: ParseOutcome, rootClassName: string) returns (out: string)
    ensures out == Convert(CSharp, jsonObj, rootClassName)
  {
    var classes := new ClassRegistry();
    match jsonObj {
      case ParseFailed(e) =>
        return CSharpErrorPrefix + e;
      case Parsed(parsed) =>
        if !IsTypeofObject(parsed) || parsed.Null? {
          return CSharpInvalidMarker;
        }
        if parsed.Arr? {
          if |parsed.items| > 0 && IsTypeofObject(parsed.items[0]) {
            var ok := GenerateClass(classes, parsed.items[0], rootClassName);
            if !ok {
              return CSharpErrorPrefix + NullToObjectError;
            }
          } else {
            return CSharpPrimitivesMarker;
          }
        } else {
          var _ := GenerateClass(classes, parsed, rootClassName);
        }
        return Join(Reverse(classes.Values()), "\n\n");
    }
  }

  /** `jsonToPythonPydantic` */
  method JsonToPythonPydantic(jsonObj: ParseOutcome, rootClassName: string) returns (out: string)
    ensures out == Convert(Python, jsonObj, rootClassName)
  {
    var classes := new ClassRegistry();
    match jsonObj {
      case ParseFailed(e) =>
        return PythonErrorPrefix + e;
      case Parsed(parsed) =>
        if !IsTypeofObject(parsed) || parsed.Null? {
          return PythonInvalidMarker;
        }
        var header := PythonHeader;
        if parsed.Arr? {
          if |parsed.items| > 0 && IsTypeofObject(parsed.items[0]) {
            var ok := GenerateModel(classes, parsed.items[0], rootClassName);
            if !ok {
              return PythonErrorPrefix + NullToObjectError;
            }
          } else {
            return PythonPrimitivesMarker;
          }
        } else {
          var _ := GenerateModel(classes, parsed, rootClassName);
        }
        return header + Join(Reverse(classes.Values()), "\n\n");
    }
  }

  /** A joined list starts with its first part. */
  lemma {:induction false} JoinStartsWithFirst(parts: seq<string>, sep: string)
    requires |parts| > 0
    ensures StartsWith(Join(parts, sep), parts[0])
  {
    if |parts| > 1 {
      StartsWithAppend(parts[0], sep + Join(parts[1..], sep));
      assert Join(parts, sep) == parts[0] + (sep + Join(parts[1..], sep));
    } else {
      StartsWithAppend(parts[0], "");
      assert parts[0] + "" == parts[0];
    }
  }

  lemma StartsWithTransitive(s: string, p: string, q: string)
    requires StartsWith(s, p) && StartsWith(p, q)
    ensures StartsWith(s, q)
  {
    assert s[..|q|] == s[..|p|][..|q|];
  }

  lemma StartsWithBoth(a: string, s: string, p: string)
    requires StartsWith(s, p)
    ensures StartsWith(a + s, a + p)
  {
    assert (a + s)[..|a + p|] == a + s[..|p|];
  }

  /** The output of a walk from the empty registry opens with the body of
      the class registered last. */
  lemma {:induction false} EmitStartsWithLast(lang: Language, reg: Registry)
    requires |reg| > 0
    ensures StartsWith(Emit(lang, reg), Preamble(lang) + reg[|reg| - 1].1)
  {
    var bodies := Reverse(Bodies(reg));
    assert bodies[0] == reg[|reg| - 1].1;
    JoinStartsWithFirst(bodies, "\n\n");
    StartsWithBoth(Preamble(lang), Join(bodies, "\n\n"), bodies[0]);
  }

  /** Both converters succeed on an object root and on an array root whose
      first element is an array or an object; on every other input they
      return a comment instead of throwing. */
  lemma ConvertFailsExactlyWithComment(lang: Language, input: ParseOutcome, rootClassName: string)
    ensures StartsWith(Convert(lang, input, rootClassName), Comment(lang)) <==> RootClassValue(input).None?
  {
    match RootClassValue(input) {
      case Some(w) => SuccessIsNoComment(lang, input, rootClassName, w);
      case None => FailureIsComment(lang, input, rootClassName);
    }
  }

  lemma {:induction false} SuccessIsNoComment(lang: Language, input: ParseOutcome, rootClassName: string, w: Json)
    requires RootClassValue(input) == Some(w)
    ensures !StartsWith(Convert(lang, input, rootClassName), Comment(lang))
  {
    var reg := WalkClass(lang, w, rootClassName, []);
    ConvertEmits(lang, input, rootClassName, w);
    WalkClassGrows(lang, w, rootClassName, []);
    WalkClassRegisters(lang, w, rootClassName, []);
    EmitIsNoComment(lang, reg);
  }

  /** Emitted declarations open with the preamble and the header of the
      class registered last. */
  lemma EmitOpensWithHeader(lang: Language, reg: Registry)
    requires |reg| > 0 && Declared(lang, reg)
    ensures StartsWith(Emit(lang, reg), Preamble(lang) + ClassHeader(lang, reg[|reg| - 1].0))
  {
    var last := reg[|reg| - 1];
    EmitStartsWithLast(lang, reg);
    assert StartsWith(last.1, ClassHeader(lang, last.0));
    StartsWithBoth(Preamble(lang), last.1, ClassHeader(lang, last.0));
    StartsWithTransitive(Emit(lang, reg), Preamble(lang) + last.1, Preamble(lang) + ClassHeader(lang, last.0));
  }

  /** The preamble and a class header never open like a comment. */
  lemma OpeningIsCode(lang: Language, name: string)
    ensures var p := Preamble(lang) + ClassHeader(lang, name);
      |p| > 0 && p[0] != Comment(lang)[0]
  {
    match lang {
      case CSharp =>
        assert (Preamble(lang) + ClassHeader(lang, name))[0] == 'p';
      case Python =>
        assert (Preamble(lang) + ClassHeader(lang, name))[0] == PythonHeader[0] == 'f';
    }
  }

  /** Emitted declarations open with the preamble and a class header,
      never with a comment. */
  lemma {:induction false} EmitIsNoComment(lang: Language, reg: Registry)
    requires |reg| > 0 && Declared(lang, reg)
    ensures StartsWith(Emit(lang, reg), Preamble(lang) + ClassHeader(lang, reg[|reg| - 1].0))
    ensures !StartsWith(Emit(lang, reg), Comment(lang))
  {
    var out := Emit(lang, reg);
    var opening := Preamble(lang) + ClassHeader(lang, reg[|reg| - 1].0);
    EmitOpensWithHeader(lang, reg);
    OpeningIsCode(lang, reg[|reg| - 1].0);
    FirstChar(out, opening);
    FirstCharDiffers(out, Comment(lang));
  }

  lemma FirstChar(s: string, p: string)
    requires StartsWith(s, p) && |p| > 0
    ensures |s| > 0 && s[0] == p[0]
  {
    assert s[..|p|][0] == s[0];
  }

  lemma FirstCharDiffers(s: string, p: string)
    requires |s| > 0 && |p| > 0 && s[0] != p[0]
    ensures !StartsWith(s, p)
  {
    if |p| <= |s| {
      assert s[..|p|][0] != p[0];
    }
  }

  lemma {:induction false} FailureIsComment(lang: Language, input: ParseOutcome, rootClassName: string)
    requires RootClassValue(input).None?
    ensures StartsWith(Convert(lang, input, rootClassName), Comment(lang))
  {
    var out := Convert(lang, input, rootClassName);
    match input {
      case ParseFailed(e) =>
        ErrorMarkerIsComment(lang, e);
      case Parsed(p) =>
        if !IsCompound(p) {
          InvalidMarkerIsComment(lang);
        } else if p.Arr? && !(|p.items| > 0 && IsTypeofObject(p.items[0])) {
          PrimitivesMarkerIsComment(lang);
        } else {
          assert out == ErrorMarker(lang, NullToObjectError);
          ErrorMarkerIsComment(lang, NullToObjectError);
        }
    }
  }

  lemma ErrorMarkerIsComment(lang: Language, e: string)
    ensures StartsWith(ErrorMarker(lang, e), Comment(lang))
  {
    StartsWithAppend(Comment(lang), "Error parsing JSON: ");
    StartsWithExtend(Comment(lang) + "Error parsing JSON: ", Comment(lang), e);
  }

  lemma InvalidMarkerIsComment(lang: Language)
    ensures StartsWith(InvalidMarker(lang), Comment(lang))
  {
    StartsWithAppend(Comment(lang), "Invalid JSON object");
  }

  lemma PrimitivesMarkerIsComment(lang: Language)
    ensures StartsWith(PrimitivesMarker(lang), Comment(lang))
  {
    StartsWithAppend(Comment(lang), "Root is an array of primitives");
    if lang == CSharp {
      StartsWithExtend(Comment(lang) + "Root is an array of primitives", Comment(lang), ", cannot generate class");
    }
  }

  /** Whenever the root has a class shape, the output is the emitted walk
      of it. */
  lemma ConvertEmits(lang: Language, input: ParseOutcome, rootClassName: string, w: Json)
    requires RootClassValue(input) == Some(w)
    ensures IsCompound(w)
    ensures Convert(lang, input, rootClassName) == Emit(lang, WalkClass(lang, w, rootClassName, []))
  {
    var parsed := input.value;
    if parsed.Arr? {
      assert IsArrayOfCompound(parsed) && parsed.items[0] == w;
    }
  }

  /** The root class comes first: unless a class the walk registers below
      the root reuses the root's name, the output opens, after the
      preamble, with the root's declaration. */
  lemma {:induction false} ConvertRootFirst(lang: Language, input: ParseOutcome, rootClassName: string, w: Json)
    requires RootClassValue(input) == Some(w)
    requires IsCompound(w) && rootClassName !in Names(WalkPrefix(lang, w, |Entries(w)|, []))
    ensures StartsWith(Convert(lang, input, rootClassName), Preamble(lang) + ClassBody(lang, rootClassName, w))
  {
    var reg := WalkClass(lang, w, rootClassName, []);
    ConvertEmits(lang, input, rootClassName, w);
    WalkClassEndsWithItself(lang, w, rootClassName, []);
    EmitStartsWithLast(lang, reg);
  }

  /** What a successful conversion emits: the bodies of the registry a walk
      of the root value leaves, each class name once, each body declaring
      the class it is registered under, the root's own body among them,
      no class but the root and the ones below it, and a class for every
      property of the root that names one. */
  lemma {:induction false} ConvertDeclarations(lang: Language, input: ParseOutcome, rootClassName: string, w: Json)
    requires RootClassValue(input) == Some(w)
    ensures var reg := WalkClass(lang, w, rootClassName, []);
      && Convert(lang, input, rootClassName) == Emit(lang, reg)
      && UniqueKeys(reg)
      && Declared(lang, reg)
      && Lookup(reg, rootClassName) == Some(ClassBody(lang, rootClassName, w))
      && Names(reg) <= {rootClassName} + NestedNames(w)
      && forall i :: 0 <= i < |Entries(w)| && NestsClass(Entries(w)[i].1) ==>
           NestedClassName(Entries(w)[i].0, Entries(w)[i].1) in Names(reg)
  {
    ConvertEmits(lang, input, rootClassName, w);
    WalkClassGrows(lang, w, rootClassName, []);
    WalkClassRegisters(lang, w, rootClassName, []);
    WalkClassRegistersChildren(lang, w, rootClassName, []);
    assert Names([]) == {};
  }
}
