# JSON-to-class converters, modelled in Dafny

This project models the JSON-to-class generator of the developer dashboard,
`dev-dashboard/src/lib/json-converters.ts`. The generator turns a JSON
value into source text in one of two forms:

- C# classes, each property written as `public T Name { get; set; }`;
- Python Pydantic models, each field written as `key: T`, after a fixed
  `typing`/`pydantic` import header.

The modules follow the structure of that file:

| module | what it holds |
|---|---|
| `JsonValue` (`json_value.dfy`) | The parsed JSON value, and the outcome of `JSON.parse` as an input. JavaScript's `typeof … === 'object'` test. `Object.entries`, which gives an array decimal index keys. |
| `Naming` (`naming.dfy`) | `toPascalCase`, and the rule that names the class of an array's items (drop a trailing `s`, else append `Item`). |
| `TypeMapping` (`type_mapping.dfy`) | `getCSharpType` and `getPythonType`. A structural type (`TypeShape`) and a parser for each type text, which the functions are proved against. |
| `ClassMap` (`class_map.dfy`) | The `classes` registry. It is a JavaScript `Map`: insertion-ordered, with unique keys. `set` on a key that is already present keeps the key's position and replaces its value. `ClassRegistry` is the mutable object the generators update; `Assign` is its specification. |
| `ClassWalk` (`class_walk.dfy`) | The walk that `generateClass`/`generateModel` perform, as functions: the property line, the class body, and the registry after the walk. Lemmas about what the walk registers and keeps. |
| `Converters` (`converters.dfy`) | The imperative generators `GenerateClass` and `GenerateModel`. They update the registry, build `classContent` in a `for` loop, and are proved equal to the walk. The drivers `JsonToCSharp` and `JsonToPythonPydantic`, proved equal to `Convert`. Lemmas about the output text. |
| `ConverterExamples` (`converter_examples.dfy`) | Worked conversions, among them `{"id": 1, "tags": ["a","b"], "owner": {"name": "x"}}` under the default root name `Root`. |
| `Wrappers` (`wrappers.dfy`) | The `Option` type. |

## Behaviour of the code that the model keeps

- **Emission order.** The root class is emitted **first**:
  - each class is `set` only after all the classes nested in it;
  - the values are then reversed.

  So the class registered first, the first leaf whose walk finishes, is
  emitted last. For
  `{"id": 1, "tags": ["a","b"], "owner": {"name": "x"}}` the output is
  `Root`, then `Owner` (`ConverterExamples.OwnerExample`,
  `Converters.ConvertRootFirst`).
- **First wins** only for names registered before a class's walk began.
  The `has` test runs before the children are walked. If a nested class
  takes the enclosing class's name (for example `{"root": {...}}` under
  the root name `Root`), the outer `set` comes later and overwrites the
  inner body in place. So the nested declaration is lost
  (`ClassMap.AssignIsMapSet`, `ClassWalk.WalkClassRegisters`).
- **Empty objects.** The C# generator has no placeholder for an empty
  object: it emits an empty class. Only the Python generator writes
  `pass` (`ConverterExamples.EmptyObject`).
- **A root of `[null]`.** It passes the drivers' `typeof` test. Then
  `Object.entries(null)` throws, and the error is caught and reported with
  the parse-error prefix (`ConverterExamples.RootNullElement`).

## Model

| member | source | states |
|---|---|---|
| Naming.ToPascalCase | dev-dashboard/src/lib/json-converters.ts:3-5 | The result has the key's length. Its first character is the ASCII upper case of the key's first. Every later character is unchanged. |
| Naming.UpperCharNotLower | dev-dashboard/src/lib/json-converters.ts:4 | Upper-casing never yields a lower-case ASCII letter. |
| Naming.PascalCaseIdempotent | dev-dashboard/src/lib/json-converters.ts:3-5 | Applying `toPascalCase` twice is the same as applying it once. |
| Naming.PascalCaseAppend | dev-dashboard/src/lib/json-converters.ts:3-5 | For a non-empty name, `toPascalCase` leaves a suffix untouched. |
| Naming.ItemClassName | dev-dashboard/src/lib/json-converters.ts:43 | Item-class naming, shared with line 111. Its meaning is fixed by `ItemClassNaming`. |
| Naming.ItemClassNaming | dev-dashboard/src/lib/json-converters.ts:43 | An item class under `stem + "s"` is named PascalCase(stem). Under a key without a trailing `s`, it is PascalCase(key) + `Item`. |
| TypeMapping.CSharpTypeRoundTrip | dev-dashboard/src/lib/json-converters.ts:10-23 | Parsing the C# type text back gives exactly the value's structural type. Covers `object`, `int`/`double`, `bool`, `string` and `List<…>` sampled from the first element. |
| TypeMapping.CSharpTypeDeterminedByShape | dev-dashboard/src/lib/json-converters.ts:10-23 | Two values get the same C# type text if and only if they have the same structural type. |
| TypeMapping.Wrapped | dev-dashboard/src/lib/json-converters.ts:19 | A `List<…>` or `List[…]` text (line 19, and line 83) splits back into its opener, its element type and its closer. |
| TypeMapping.CSharpType | dev-dashboard/src/lib/json-converters.ts:10-23 | `getCSharpType`. Its meaning is fixed by `CSharpTypeRoundTrip` and `CSharpTypeDeterminedByShape`. |
| TypeMapping.PythonTypeRoundTrip | dev-dashboard/src/lib/json-converters.ts:75-86 | Parsing the Python type text back gives the structural type with every integer widened to a float. |
| TypeMapping.PythonTypeDeterminedByShape | dev-dashboard/src/lib/json-converters.ts:75-86 | Two values get the same Python type text if and only if their widened structural types agree. |
| TypeMapping.PythonType | dev-dashboard/src/lib/json-converters.ts:75-86 | `getPythonType`. Its meaning is fixed by `PythonTypeRoundTrip` and `PythonTypeDeterminedByShape`. |
| JsonValue.Entries | dev-dashboard/src/lib/json-converters.ts:32 | `Object.entries`, shared with line 95: an object's members, or an array's elements under decimal index keys. It is used by `WalkClass` and the generators' loops, which `GenerateClass` and `GenerateModel` tie together. |
| JsonValue.IsTypeofObject | dev-dashboard/src/lib/json-converters.ts:56 | `typeof v === 'object'`, shared with lines 59, 128 and 133. It holds for `null`, arrays and objects, so a `[null]` root passes it. `ConvertFailsExactlyWithComment` covers every branch that uses it. |
| JsonValue.IsCompound | dev-dashboard/src/lib/json-converters.ts:42 | `typeof value[0] === 'object' && value[0] !== null`, shared with line 110: an array or an object, the values `Object.entries` is applied to. |
| ClassMap.AssignIsMapSet | dev-dashboard/src/lib/json-converters.ts:51 | `Map.set` semantics. A present key keeps its position and gets the new value; a new key is appended. It adds exactly that name. Other keys' values are unchanged. Uniqueness of keys is kept. |
| ClassMap.Assign | dev-dashboard/src/lib/json-converters.ts:51 | `classes.set`. Its meaning is fixed by `AssignIsMapSet`. |
| ClassMap.ClassRegistry.constructor | dev-dashboard/src/lib/json-converters.ts:26 | A new registry is empty. |
| ClassMap.ClassRegistry.Set | dev-dashboard/src/lib/json-converters.ts:51 | The registry afterwards is the old one after `Map.set` of that name and body. |
| ClassMap.ClassRegistry.Has | dev-dashboard/src/lib/json-converters.ts:29 | `classes.has(className)`, shared with line 92: the name is among the registered names. `GenerateClass` and `GenerateModel` return early on it, and their ensures state the unchanged registry. |
| ClassMap.ClassRegistry.Values | dev-dashboard/src/lib/json-converters.ts:68 | `Array.from(classes.values())`, shared with line 142: the bodies in insertion order. `JsonToCSharp` and `JsonToPythonPydantic` are proved to emit them reversed and joined. |
| ClassMap.Bodies | dev-dashboard/src/lib/json-converters.ts:68 | The values of a registry in insertion order, as `Array.from(classes.values())` lists them. Used by `Emit`; see `EmitStartsWithLast`. |
| ClassWalk.ClassContentDeclares | dev-dashboard/src/lib/json-converters.ts:31-49 | Every prefix of a class's content, after any number of property lines, starts with that class's header. |
| ClassWalk.IsArrayOfCompound | dev-dashboard/src/lib/json-converters.ts:42 | The test for an array whose first element gets a class, shared with line 110. `PropertyTypeOfNestedClass` and `WalkPropertyRegisters` describe what follows from it. |
| ClassWalk.NestsClass | dev-dashboard/src/lib/json-converters.ts:38-42 | Whether a property's value is walked as a class: either branch of lines 38 and 42, shared with 106 and 110. |
| ClassWalk.NestedClassName | dev-dashboard/src/lib/json-converters.ts:39-43 | The class name of a nested value: `toPascalCase(key)` for an object, the item name for an array of objects, shared with 107 and 111. |
| ClassWalk.ListType | dev-dashboard/src/lib/json-converters.ts:44 | `List<…>` in C#, `List[…]` in Python (line 112). |
| ClassWalk.ClassHeader | dev-dashboard/src/lib/json-converters.ts:31 | The literal `public class ${className}\n{\n` and, at line 94, `class ${className}(BaseModel):\n`. `ClassBodyDeclares` states that each body opens with it. |
| ClassWalk.CSharpLine | dev-dashboard/src/lib/json-converters.ts:48 | The property template `    public ${type} ${propertyName} { get; set; }\n`. `ConverterExamples.RootLines` shows it filled in. |
| ClassWalk.PythonLine | dev-dashboard/src/lib/json-converters.ts:121 | The field template `    ${key}: ${type}\n`. `ConverterExamples.PythonIntegralAndFractional` shows it filled in. |
| ClassWalk.ClassContent | dev-dashboard/src/lib/json-converters.ts:31-49 | `classContent` after i turns of the loop: the header, then one `PropertyLine` per entry in entry order. It is the loop invariant of `GenerateClass` and `GenerateModel`; see also `ClassContentDeclares`. |
| ClassWalk.WalkPrefix | dev-dashboard/src/lib/json-converters.ts:34-49 | The registry after i turns of the loop, shared with lines 103-122. It is the registry invariant of `GenerateClass` and `GenerateModel`; described by `WalkPrefixGrows` and `WalkPrefixRegistersChildren`. |
| ClassWalk.WalkProperty | dev-dashboard/src/lib/json-converters.ts:36-46 | The registry after one turn, shared with lines 104-119. `CSharpPropertyType` and `PythonFieldType` are proved to leave it; described by `WalkPropertyGrows` and `WalkPropertyRegisters`. |
| ClassWalk.PropertyTypeOfPlainValue | dev-dashboard/src/lib/json-converters.ts:36 | A property that nests no class gets exactly `getCSharpType(value)` in C#. In Python it gets `getPythonType(value)`, except that an integral number gets `int` (lines 104 and 117-119). |
| ClassWalk.PropertyType | dev-dashboard/src/lib/json-converters.ts:36-46 | The type a property line carries, shared with lines 104-119. Fixed by `PropertyTypeOfNestedClass` for nesting values and `PropertyTypeOfPlainValue` for all others. `PropertyTypeIntExactlyForIntegers` and `PropertyTypeFloatExactlyForFractions` describe the numeric types. |
| ClassWalk.PropertyLine | dev-dashboard/src/lib/json-converters.ts:48 | The line a property adds, shared with line 121. Its text is shown by `ConverterExamples.RootLines`. The generators' loops are proved to append exactly it. |
| ClassWalk.ClassBody | dev-dashboard/src/lib/json-converters.ts:31-50 | A class's finished text, shared with lines 94-121. `ClassBodyDeclares` fixes its header, and the generators are proved to `set` exactly it. |
| ClassWalk.WalkClass | dev-dashboard/src/lib/json-converters.ts:28-52 | The registry after a class walk, shared with lines 91-124. Described by `WalkClassGrows`, `WalkClassRegisters`, `WalkKeepsEarlier`, `WalkClassEndsWithItself` and `WalkClassRegistersChildren`. |
| ClassWalk.ClassBodyDeclares | dev-dashboard/src/lib/json-converters.ts:94-101 | A finished body starts with its own header. This holds for both languages and for the empty Python model. |
| ClassWalk.WalkClassGrows | dev-dashboard/src/lib/json-converters.ts:28-52 | A class walk only extends the registry. It registers only its own name and its nested names. It keeps keys unique. It keeps every entry a declaration of its own name. |
| ClassWalk.WalkPrefixGrows | dev-dashboard/src/lib/json-converters.ts:34-49 | The same four facts for the first n turns of the property loop. |
| ClassWalk.WalkPropertyGrows | dev-dashboard/src/lib/json-converters.ts:36-46 | The same four facts for one property. A property that nests a class leaves that class's name registered. |
| ClassWalk.WalkPropertyRegisters | dev-dashboard/src/lib/json-converters.ts:38-46 | A property whose value nests a class leaves that class's name registered, whether or not the name was registered before. |
| ClassWalk.WalkClassRegisters | dev-dashboard/src/lib/json-converters.ts:29-51 | After a walk, the class name is registered. If it was already registered, the walk changes nothing. Otherwise its value is this class's finished body. |
| ClassWalk.WalkKeepsEarlier | dev-dashboard/src/lib/json-converters.ts:29 | A name registered before the walk keeps its body. |
| ClassWalk.WalkClassEndsWithItself | dev-dashboard/src/lib/json-converters.ts:41-51 | When the registry left by the property loop does not hold the class's name (registered neither before nor below it), the class is registered last, after all its nested classes, and nowhere else. |
| ClassWalk.NestedNamesFree | dev-dashboard/src/lib/json-converters.ts:28-52 | No class name anywhere below the value being the class's name is enough for the previous condition. |
| ClassWalk.WalkPrefixRegistersChildren | dev-dashboard/src/lib/json-converters.ts:34-49 | After n turns of the loop, every nested class in the first n properties is registered. |
| ClassWalk.WalkPrefixRegistersChild | dev-dashboard/src/lib/json-converters.ts:34-49 | After n turns of the loop, the nested class of any one of the first n properties is registered. |
| ClassWalk.WalkClassRegistersChildren | dev-dashboard/src/lib/json-converters.ts:28-52 | After the walk of a new class, every nested class of its properties is registered. |
| ClassWalk.PropertyTypeOfNestedClass | dev-dashboard/src/lib/json-converters.ts:38-46 | A nested object's property type is its class name. A nested array of objects gets a list of the item class. |
| ClassWalk.PropertyTypeIntExactlyForIntegers | dev-dashboard/src/lib/json-converters.ts:116-119 | In both languages, a property is typed `int` exactly when its value is an integral number. |
| ClassWalk.PropertyTypeFloatExactlyForFractions | dev-dashboard/src/lib/json-converters.ts:14 | Shared with lines 79 and 116-119. A property is typed `double` (C#) or `float` (Python) exactly when its value is a fractional number. |
| Converters.Reverse | dev-dashboard/src/lib/json-converters.ts:68 | `reverse()` keeps the length and puts element i at position n-1-i. |
| Converters.Join | dev-dashboard/src/lib/json-converters.ts:68 | `join("\n\n")`, shared with line 142. Fixed by `JoinAppend` together with its empty and one-part cases; `JoinStartsWithFirst` gives its first part. |
| Converters.Emit | dev-dashboard/src/lib/json-converters.ts:68 | The reversed, joined registry, shared with line 142. Described by `EmitStartsWithLast` and `EmitIsNoComment`. |
| Converters.Convert | dev-dashboard/src/lib/json-converters.ts:54-71 | Shared with lines 126-145. The drivers are proved to return it. Described by `ConvertFailsExactlyWithComment`, `ConvertEmits`, `ConvertRootFirst` and `ConvertDeclarations`. |
| Converters.RootClassValue | dev-dashboard/src/lib/json-converters.ts:56-66 | The value the driver hands to `generateClass` first: the object itself, or the first element of an array whose first element is an object or array. It is none for every failure branch (`ConvertFailsExactlyWithComment`). A `[null]` root gives none here and reaches the `catch` in `Convert`. |
| Converters.Preamble | dev-dashboard/src/lib/json-converters.ts:130 | The Python import header (`PythonHeader`) put in front of the joined bodies at line 142; nothing for C#. |
| Converters.Comment | dev-dashboard/src/lib/json-converters.ts:56 | The comment opener `// ` of every C# failure string, and `# ` of every Python one (line 128). |
| Converters.InvalidMarker | dev-dashboard/src/lib/json-converters.ts:56 | `CSharpInvalidMarker` spells `// Invalid JSON object`; `PythonInvalidMarker` spells the line-128 text. `InvalidMarkerIsComment` states its opener. |
| Converters.PrimitivesMarker | dev-dashboard/src/lib/json-converters.ts:62 | `CSharpPrimitivesMarker` spells `// Root is an array of primitives, cannot generate class`; `PythonPrimitivesMarker` spells the line-136 text. `PrimitivesMarkerIsComment` states its opener. |
| Converters.ErrorMarker | dev-dashboard/src/lib/json-converters.ts:70 | `// Error parsing JSON: ${e}` (`CSharpErrorPrefix` + e), and `# Error parsing JSON: ${e}` at line 144. `ErrorMarkerIsComment` states its opener. |
| Converters.GenerateClass | dev-dashboard/src/lib/json-converters.ts:28-52 | The registry afterwards is exactly the walk of the object under the class name: unchanged if the name was present, and unchanged if the object is `null` (`ok` false exactly when `Object.entries(null)` would throw). The loop invariant ties `classContent` to the class content after i lines. |
| Converters.CSharpPropertyType | dev-dashboard/src/lib/json-converters.ts:35-46 | One loop turn gives the property's C# type and registers the class the value nests, as the walk does. |
| Converters.GenerateModel | dev-dashboard/src/lib/json-converters.ts:91-124 | As for GenerateClass, for Pydantic models, including the `pass` body of an empty object. |
| Converters.PythonFieldType | dev-dashboard/src/lib/json-converters.ts:104-119 | One loop turn gives the field's Python type, with `float` narrowed to `int` for an integral number, and registers the nested model. |
| Converters.JsonToCSharp | dev-dashboard/src/lib/json-converters.ts:54-71 | The C# driver's output is `Convert(CSharp, …)`. |
| Converters.JsonToPythonPydantic | dev-dashboard/src/lib/json-converters.ts:126-145 | The Python driver's output is `Convert(Python, …)`. |
| Converters.ConvertFailsExactlyWithComment | dev-dashboard/src/lib/json-converters.ts:54-71 | The output starts with the language's comment opener if and only if no root class value exists. That covers a parse error, a non-object, an array of primitives, and a `[null]` root. |
| Converters.FailureIsComment | dev-dashboard/src/lib/json-converters.ts:54-71 | Every failure output is a comment. |
| Converters.SuccessIsNoComment | dev-dashboard/src/lib/json-converters.ts:58-68 | A successful conversion does not start with a comment. |
| Converters.EmitIsNoComment | dev-dashboard/src/lib/json-converters.ts:68 | The output starts with the preamble (the Python import header, or nothing for C#) followed by the header of the class registered last (`public class …` or `class …(BaseModel):`). So it never starts with a comment. |
| Converters.EmitOpensWithHeader | dev-dashboard/src/lib/json-converters.ts:68 | Shared with line 142. The output opens with the preamble and then the header of the class registered last. |
| Converters.OpeningIsCode | dev-dashboard/src/lib/json-converters.ts:31 | The preamble followed by a class header (line 31, or line 94 after the line-130 import header) does not begin with the comment opener's first character. |
| Converters.ErrorMarkerIsComment | dev-dashboard/src/lib/json-converters.ts:70 | The caught-error output is a comment. |
| Converters.InvalidMarkerIsComment | dev-dashboard/src/lib/json-converters.ts:56 | The invalid-object output is a comment. |
| Converters.PrimitivesMarkerIsComment | dev-dashboard/src/lib/json-converters.ts:62 | The array-of-primitives output is a comment. |
| Converters.EmitStartsWithLast | dev-dashboard/src/lib/json-converters.ts:68 | The joined, reversed output begins with the preamble followed by the body registered last. |
| Converters.JoinStartsWithFirst | dev-dashboard/src/lib/json-converters.ts:68 | `join` output starts with its first part. |
| Converters.JoinAppend | dev-dashboard/src/lib/json-converters.ts:68 | Joining one more part adds exactly one separator and that part. With the empty and one-part cases this fixes `join`, also at line 142. |
| Converters.ConvertEmits | dev-dashboard/src/lib/json-converters.ts:58-68 | When a root value exists, the output is the emission of the walk of that value under the root name into an empty registry. |
| Converters.ConvertRootFirst | dev-dashboard/src/lib/json-converters.ts:68 | When no class the walk registers below the root takes the root's name, the output starts with the preamble followed by the root class's body. |
| Converters.ConvertDeclarations | dev-dashboard/src/lib/json-converters.ts:54-68 | The emitted registry has unique names, and every entry declares its own name. It holds the root's body under the root name. It holds no names other than the root's and the nested ones. Every directly nested class is registered. |
| ConverterExamples.EmptyObject | dev-dashboard/src/lib/json-converters.ts:97-101 | `{}` gives an empty C# class, and a Python model whose body is `pass`. |
| ConverterExamples.CSharpIntegralAndFractional | dev-dashboard/src/lib/json-converters.ts:14 | `{"a": 5}` gives `public int A`; `{"a": 5.5}` gives `public double A`. |
| ConverterExamples.PythonIntegralAndFractional | dev-dashboard/src/lib/json-converters.ts:116-119 | `a: int` for an integer and `a: float` for a fraction. A list of integers stays `List[float]`. |
| ConverterExamples.RootNullElement | dev-dashboard/src/lib/json-converters.ts:58-70 | A `[null]` root gives the parse-error prefix followed by the `Object.entries(null)` error. |
| ConverterExamples.OwnerClass | dev-dashboard/src/lib/json-converters.ts:31-50 | The `Owner` class has exactly one `string Name` property. |
| ConverterExamples.RootLines | dev-dashboard/src/lib/json-converters.ts:34-48 | The `Root` properties are `int Id`, `List<string> Tags` and `Owner Owner`. |
| ConverterExamples.RootClass | dev-dashboard/src/lib/json-converters.ts:31-50 | The full `Root` class text. |
| ConverterExamples.ExampleRegistry | dev-dashboard/src/lib/json-converters.ts:38-51 | The walk registers `Owner` and then `Root`. |
| ConverterExamples.OwnerExample | dev-dashboard/src/lib/json-converters.ts:68 | The output is the `Root` class, a blank line, then the `Owner` class. |
| ConverterExamples.SkippedNameExample | dev-dashboard/src/lib/json-converters.ts:29 | In `{"foo": {}, "x": {"foo": {"bar": {}}}}`, the inner `foo` is skipped, so `Bar` lies below the root but is never registered. Under the root name `Bar`, that root class is still emitted first. |

## Constants

The failure strings and the header are constants of `Converters`, each
written as a concatenation of short pieces:

- `CSharpInvalidMarker`, `PythonInvalidMarker`: the strings at lines 56 and 128.
- `CSharpPrimitivesMarker`, `PythonPrimitivesMarker`: the strings at lines 62 and 136.
- `CSharpErrorPrefix`, `PythonErrorPrefix`: the text before `${e}` at lines 70 and 144.
- `PythonHeader`: the header at line 130.
- `NullToObjectError`: the text of the `TypeError` that `Object.entries(null)` throws (line 32), in V8's wording.
- `DefaultRootClassName`: the default parameter value `'Root'` at lines 25 and 88.

## Left out

- `JSON.parse` is not modelled: the converters take its outcome as input.
  - A parse failure carries the exception text that `${e}` prints, as an opaque string.
  - An already-parsed argument (the non-string branch at lines 55 and 127) is modelled only when it is a JSON value, as the same `Parsed` input. JavaScript values outside JSON (`undefined`, functions, `bigint`, symbols) are not modelled.
- TypeMapping.CSharpType: the fallback `return 'string'` at line 22 is not modelled. It is reached only by such non-JSON values (`undefined`, a function, a `bigint`), which the model cannot represent.
- TypeMapping.PythonType: the final `return 'Any'` at line 85 is modelled for objects only. Its other inputs, the same non-JSON values, are left out for the same reason.
- Numbers: a JSON number carries only whether `Number.isInteger` holds for it. Floating-point values and their formatting are not modelled.
- ToPascalCase: upper-cases ASCII letters only. JavaScript's `toUpperCase` also maps other Unicode letters, and can lengthen a string (`ß` becomes `SS`).
- JsonValue.Entries: object members are taken in the order `Object.entries` yields them. JavaScript's rule that puts integer-like keys first is assumed to be already applied to the input.
- JsonValue.Entries: object keys are assumed distinct, as `JSON.parse` and `Object.entries` give them. The `Obj` constructor admits repeated keys, and for those the model writes one line per repetition; no such output can arise from the source.
- Strings and booleans carry their values, but no output depends on them.
- The `TypeError` text that `Object.entries(null)` throws is fixed to V8's wording (`NullToObjectError`). Other engines word it differently.
- The default parameter `rootClassName = 'Root'` is the constant `DefaultRootClassName`, which the worked examples use. The drivers always take the name explicitly.
- Deep recursion: a JavaScript stack overflow on very deeply nested input (itself caught and reported) is not modelled.
- The property-loop body of each generator is a separate method (`CSharpPropertyType`, `PythonFieldType`). This changes no state or order relative to the inline code.
- Not part of this model: the dashboard's pages, the commit-message generator and its HTTP handler, and the regex tester.
