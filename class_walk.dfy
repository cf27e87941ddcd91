/** What `generateClass` (C#) and `generateModel` (Python) compute: the
    property lines of one class, and the registry a walk leaves behind,
    as functions of the walked value and of the registry it starts from. */
module ClassWalk {
  import opened JsonValue
  import opened Naming
  import opened TypeMapping
  import opened ClassMap
  import opened Wrappers

  /** The two target languages (`Language` in the source). */
  datatype Language = CSharp | Python

  /** `Array.isArray(value) && value.length > 0 &&
      typeof value[0] === 'object' && value[0] !== null`: the array's
      first element gets a class of its own. An array counts as an
      object here. */
  predicate IsArrayOfCompound(v: Json) {
    v.Arr? && |v.items| > 0 && IsCompound(v.items[0])
  }

  /** Whether a property's value is walked as a class of its own. */
  predicate NestsClass(value: Json) {
    value.Obj? || IsArrayOfCompound(value)
  }

  /** The name of the class a property's value is walked as. */
  function NestedClassName(key: string, value: Json): string {
    if value.Obj? then ToPascalCase(key) else ItemClassName(key)
  }

  function ListType(lang: Language, element: string): string {
    match lang
    case CSharp => "List<" + element + ">"
    case Python => "List[" + element + "]"
  }

  /** The type written for the property `key` holding `value`. */
  function PropertyType(lang: Language, key: string, value: Json): string {
    var t :=
      if value.Obj? then ToPascalCase(key)
      else if IsArrayOfCompound(value) then ListType(lang, ItemClassName(key))
      else if lang == CSharp then CSharpType(value)
      else PythonType(value);
    if lang == Python && value.Num? && value.isInteger && t == "float" then "int" else t
  }

  /** The line written for one property. */
  function PropertyLine(lang: Language, key: string, value: Json): string {
    match lang
    case CSharp => CSharpLine(PropertyType(lang, key, value), ToPascalCase(key))
    case Python => PythonLine(key, PropertyType(lang, key, value))
  }

  /** The auto-property a C# class declares. */
  function CSharpLine(typeName: string, propertyName: string): string {
    "    public " + typeName + " " + propertyName + " { get; set; }\n"
  }

  /** The annotated field a Pydantic model declares. */
  function PythonLine(key: string, typeName: string): string {
    "    " + key + ": " + typeName + "\n"
  }

  /** The opening of a class declaration. */
  function ClassHeader(lang: Language, name: string): string {
    match lang
    case CSharp => "public class " + name + "\n{\n"
    case Python => "class " + name + "(BaseModel):\n"
  }

  /** `classContent` once the property loop has handled `n` entries: the
      header and then one line per entry, in entry order. */
  function ClassContent(lang: Language, name: string, v: Json, n: nat): string
    requires IsCompound(v) && n <= |Entries(v)|
  {
    if n == 0 then ClassHeader(lang, name)
    else ClassContent(lang, name, v, n - 1) + PropertyLine(lang, Entries(v)[n - 1].0, Entries(v)[n - 1].1)
  }

  /** The declaration registered for `v` under `name`. C# closes it with a
      brace and has no placeholder; Python writes `pass` for an empty
      model. */
  function ClassBody(lang: Language, name: string, v: Json): string
    requires IsCompound(v)
  {
    match lang
    case CSharp => ClassContent(lang, name, v, |Entries(v)|) + "}"
    case Python =>
      if |Entries(v)| == 0 then ClassHeader(lang, name) + "    pass\n"
      else ClassContent(lang, name, v, |Entries(v)|)
  }

  /** The registry after walking `v` under `name`: nothing happens if the
      name is already registered; otherwise every nested class is walked
      first and then the class itself is set. */
  function WalkClass(lang: Language, v: Json, name: string, reg: Registry): Registry
    requires IsCompound(v)
    decreases v, 1
  {
    if name in Names(reg) then reg
    else Assign(WalkPrefix(lang, v, |Entries(v)|, reg), name, ClassBody(lang, name, v))
  }

  /** The registry after the property loop has handled the first `n`
      entries of `v`. */
  function WalkPrefix(lang: Language, v: Json, n: nat, reg: Registry): Registry
    requires IsCompound(v) && n <= |Entries(v)|
    decreases v, 0, n
  {
    if n == 0 then reg
    else WalkProperty(lang, Entries(v)[n - 1].0, Entries(v)[n - 1].1, WalkPrefix(lang, v, n - 1, reg))
  }

  /** The registry after one turn of the property loop: an object value is
      walked under its key's class name, the first element of an array of
      objects under the item-class name, anything else leaves the registry
      as it is. */
  function WalkProperty(lang: Language, key: string, value: Json, reg: Registry): Registry
    decreases value, 2
  {
    if value.Obj? then WalkClass(lang, value, ToPascalCase(key), reg)
    else if IsArrayOfCompound(value) then WalkClass(lang, value.items[0], ItemClassName(key), reg)
    else reg
  }

  /** Every class name a walk of `v` could register below `v` itself,
      whether or not an earlier registration makes the walk skip it. */
  ghost function NestedNames(v: Json): set<string>
    requires IsCompound(v)
    decreases v, 1
  {
    NestedNamesPrefix(v, |Entries(v)|)
  }

  ghost function NestedNamesPrefix(v: Json, n: nat): set<string>
    requires IsCompound(v) && n <= |Entries(v)|
    decreases v, 0, n
  {
    if n == 0 then {}
    else NestedNamesPrefix(v, n - 1) + PropertyNestedNames(Entries(v)[n - 1].0, Entries(v)[n - 1].1)
  }

  /** The class names one property could register. */
  ghost function PropertyNestedNames(key: string, value: Json): set<string>
    decreases value, 2
  {
    if value.Obj? then {ToPascalCase(key)} + NestedNames(value)
    else if IsArrayOfCompound(value) then {ItemClassName(key)} + NestedNames(value.items[0])
    else {}
  }

  /** Every registered body opens with the declaration of its own name. */
  ghost predicate Declared(lang: Language, r: Registry) {
    forall i :: 0 <= i < |r| ==> StartsWith(r[i].1, ClassHeader(lang, r[i].0))
  }

  predicate StartsWith(s: string, p: string) {
    |p| <= |s| && s[..|p|] == p
  }

  lemma StartsWithAppend(p: string, x: string)
    ensures StartsWith(p + x, p)
  {
    assert (p + x)[..|p|] == p;
  }

  lemma StartsWithExtend(s: string, p: string, x: string)
    requires StartsWith(s, p)
    ensures StartsWith(s + x, p)
  {
    assert (s + x)[..|p|] == s[..|p|];
  }

  /** The content built so far always opens with the header. */
  lemma {:induction false} ClassContentDeclares(lang: Language, name: string, v: Json, n: nat)
    requires IsCompound(v) && n <= |Entries(v)|
    ensures StartsWith(ClassContent(lang, name, v, n), ClassHeader(lang, name))
  {
    if n == 0 {
      StartsWithAppend(ClassHeader(lang, name), "");
      assert ClassHeader(lang, name) + "" == ClassHeader(lang, name);
    } else {
      ClassContentDeclares(lang, name, v, n - 1);
      StartsWithExtend(ClassContent(lang, name, v, n - 1), ClassHeader(lang, name),
        PropertyLine(lang, Entries(v)[n - 1].0, Entries(v)[n - 1].1));
    }
  }

  lemma {:induction false} ClassBodyDeclares(lang: Language, name: string, v: Json)
    requires IsCompound(v)
    ensures StartsWith(ClassBody(lang, name, v), ClassHeader(lang, name))
  {
    var h := ClassHeader(lang, name);
    var c := ClassContent(lang, name, v, |Entries(v)|);
    ClassContentDeclares(lang, name, v, |Entries(v)|);
    match lang {
      case CSharp =>
        StartsWithExtend(c, h, "}");
      case Python =>
        StartsWithAppend(h, "    pass\n");
    }
  }

  /** A walk only appends to the registry it starts from (so it never
      changes a class registered before it), keeps the map's keys unique,
      registers nothing but `name` and the names below `v`, and every body
      it registers declares the class it is registered under. */
  lemma {:induction false} WalkClassGrows(lang: Language, v: Json, name: string, reg: Registry)
    requires IsCompound(v)
    ensures reg <= WalkClass(lang, v, name, reg)
    ensures Names(WalkClass(lang, v, name, reg)) <= Names(reg) + {name} + NestedNames(v)
    ensures UniqueKeys(reg) ==> UniqueKeys(WalkClass(lang, v, name, reg))
    ensures Declared(lang, reg) ==> Declared(lang, WalkClass(lang, v, name, reg))
    decreases v, 1
  {
    if name !in Names(reg) {
      var r0 := WalkPrefix(lang, v, |Entries(v)|, reg);
      WalkPrefixGrows(lang, v, |Entries(v)|, reg);
      AssignIsMapSet(r0, name, ClassBody(lang, name, v));
      ClassBodyDeclares(lang, name, v);
      AssignAfterPrefix(reg, r0, name, ClassBody(lang, name, v));
      if Declared(lang, reg) {
        AssignDeclared(lang, r0, name, ClassBody(lang, name, v));
      }
    }
  }

  lemma AssignDeclared(lang: Language, r: Registry, name: string, body: string)
    requires Declared(lang, r) && StartsWith(body, ClassHeader(lang, name))
    ensures Declared(lang, Assign(r, name, body))
  {
  }

  lemma {:induction false} WalkPrefixGrows(lang: Language, v: Json, n: nat, reg: Registry)
    requires IsCompound(v) && n <= |Entries(v)|
    ensures reg <= WalkPrefix(lang, v, n, reg)
    ensures Names(WalkPrefix(lang, v, n, reg)) <= Names(reg) + NestedNamesPrefix(v, n)
    ensures UniqueKeys(reg) ==> UniqueKeys(WalkPrefix(lang, v, n, reg))
    ensures Declared(lang, reg) ==> Declared(lang, WalkPrefix(lang, v, n, reg))
    decreases v, 0, n
  {
    if n > 0 {
      var r := WalkPrefix(lang, v, n - 1, reg);
      var key, value := Entries(v)[n - 1].0, Entries(v)[n - 1].1;
      WalkPrefixGrows(lang, v, n - 1, reg);
      WalkPropertyGrows(lang, key, value, r);
      PrefixTransitive(reg, r, WalkProperty(lang, key, value, r));
    }
  }

  /** One turn of the property loop grows the registry in the same way,
      and afterwards the class the property names is registered. */
  lemma {:induction false} WalkPropertyGrows(lang: Language, key: string, value: Json, reg: Registry)
    ensures reg <= WalkProperty(lang, key, value, reg)
    ensures Names(WalkProperty(lang, key, value, reg)) <= Names(reg) + PropertyNestedNames(key, value)
    ensures UniqueKeys(reg) ==> UniqueKeys(WalkProperty(lang, key, value, reg))
    ensures Declared(lang, reg) ==> Declared(lang, WalkProperty(lang, key, value, reg))
    ensures NestsClass(value) ==> NestedClassName(key, value) in Names(WalkProperty(lang, key, value, reg))
    decreases value, 2
  {
    if value.Obj? {
      WalkClassGrows(lang, value, ToPascalCase(key), reg);
      WalkClassRegisters(lang, value, ToPascalCase(key), reg);
    } else if IsArrayOfCompound(value) {
      WalkClassGrows(lang, value.items[0], ItemClassName(key), reg);
      WalkClassRegisters(lang, value.items[0], ItemClassName(key), reg);
    }
  }

  /** A property that nests a class leaves that class's name registered. */
  lemma WalkPropertyRegisters(lang: Language, key: string, value: Json, reg: Registry)
    requires NestsClass(value)
    ensures NestedClassName(key, value) in Names(WalkProperty(lang, key, value, reg))
  {
    if value.Obj? {
      WalkClassRegisters(lang, value, ToPascalCase(key), reg);
    } else {
      WalkClassRegisters(lang, value.items[0], ItemClassName(key), reg);
    }
  }

  /** Walking under a name registers that name. A name registered before
      the walk keeps its body (first registration wins); otherwise the
      body is the one built from `v`, even when a class nested in `v`
      had the same name and was registered first. */
  lemma {:induction false} WalkClassRegisters(lang: Language, v: Json, name: string, reg: Registry)
    requires IsCompound(v)
    ensures name in Names(WalkClass(lang, v, name, reg))
    ensures name in Names(reg) ==> WalkClass(lang, v, name, reg) == reg
    ensures name !in Names(reg) ==> Lookup(WalkClass(lang, v, name, reg), name) == Some(ClassBody(lang, name, v))
  {
    if name !in Names(reg) {
      AssignIsMapSet(WalkPrefix(lang, v, |Entries(v)|, reg), name, ClassBody(lang, name, v));
    }
  }

  /** Whatever is walked, a class registered before the walk keeps its
      body. */
  lemma {:induction false} WalkKeepsEarlier(lang: Language, v: Json, name: string, reg: Registry, k: string)
    requires IsCompound(v)
    requires k in Names(reg)
    ensures Lookup(WalkClass(lang, v, name, reg), k) == Lookup(reg, k)
  {
    WalkClassGrows(lang, v, name, reg);
    LookupInPrefix(reg, WalkClass(lang, v, name, reg), k);
  }

  /** A class is set only after all its nested classes: when the
      registry left by the property loop does not hold `name` (neither
      before the walk nor from a class registered below `v`), the walk
      ends with the entry for `name`, the only one under that name. */
  lemma {:induction false} WalkClassEndsWithItself(lang: Language, v: Json, name: string, reg: Registry)
    requires IsCompound(v)
    requires name !in Names(WalkPrefix(lang, v, |Entries(v)|, reg))
    ensures var r := WalkClass(lang, v, name, reg);
      |r| > 0 && r[|r| - 1] == (name, ClassBody(lang, name, v)) &&
      forall j :: 0 <= j < |r| - 1 ==> r[j].0 != name
  {
    var r0 := WalkPrefix(lang, v, |Entries(v)|, reg);
    WalkPrefixGrows(lang, v, |Entries(v)|, reg);
    PrefixNames(reg, r0);
    assert name !in Names(reg);
    var r := Assign(r0, name, ClassBody(lang, name, v));
    assert r == r0 + [(name, ClassBody(lang, name, v))];
    forall j | 0 <= j < |r| - 1 ensures r[j].0 != name {
      assert r[j] == r0[j];
    }
  }

  /** A sufficient condition for the one above that does not mention the
      walk: no class name anywhere below `v` is `name`. It is not
      necessary, since a name below a class that the walk skips is never
      registered. */
  lemma NestedNamesFree(lang: Language, v: Json, name: string, reg: Registry)
    requires IsCompound(v)
    requires name !in Names(reg) && name !in NestedNames(v)
    ensures name !in Names(WalkPrefix(lang, v, |Entries(v)|, reg))
  {
    WalkPrefixGrows(lang, v, |Entries(v)|, reg);
  }

  /** After the property loop has handled `n` entries, the class of entry
      `i < n` is registered if that entry nests one. */
  lemma {:induction false} WalkPrefixRegistersChild(lang: Language, v: Json, n: nat, reg: Registry, i: nat)
    requires IsCompound(v) && i < n <= |Entries(v)|
    requires NestsClass(Entries(v)[i].1)
    ensures NestedClassName(Entries(v)[i].0, Entries(v)[i].1) in Names(WalkPrefix(lang, v, n, reg))
    decreases n
  {
    if i < n - 1 {
      WalkPrefixRegistersChild(lang, v, n - 1, reg, i);
      WalkPrefixKeepsName(lang, v, n, reg, NestedClassName(Entries(v)[i].0, Entries(v)[i].1));
    } else {
      WalkPropertyRegisters(lang, Entries(v)[i].0, Entries(v)[i].1, WalkPrefix(lang, v, n - 1, reg));
    }
  }

  /** A turn of the property loop keeps every name registered before it. */
  lemma WalkPrefixKeepsName(lang: Language, v: Json, n: nat, reg: Registry, k: string)
    requires IsCompound(v) && 0 < n <= |Entries(v)|
    requires k in Names(WalkPrefix(lang, v, n - 1, reg))
    ensures k in Names(WalkPrefix(lang, v, n, reg))
  {
    var r := WalkPrefix(lang, v, n - 1, reg);
    WalkPropertyGrows(lang, Entries(v)[n - 1].0, Entries(v)[n - 1].1, r);
    PrefixNames(r, WalkPrefix(lang, v, n, reg));
  }

  /** After the property loop has handled `n` entries, the class of every
      one of them that nests a class is registered. */
  lemma WalkPrefixRegistersChildren(lang: Language, v: Json, n: nat, reg: Registry)
    requires IsCompound(v) && n <= |Entries(v)|
    ensures forall i :: 0 <= i < n && NestsClass(Entries(v)[i].1) ==>
      NestedClassName(Entries(v)[i].0, Entries(v)[i].1) in Names(WalkPrefix(lang, v, n, reg))
  {
    forall i | 0 <= i < n && NestsClass(Entries(v)[i].1)
      ensures NestedClassName(Entries(v)[i].0, Entries(v)[i].1) in Names(WalkPrefix(lang, v, n, reg))
    {
      WalkPrefixRegistersChild(lang, v, n, reg, i);
    }
  }

  /** No dangling type: a class walked from scratch leaves every class
      its own properties name registered. */
  lemma {:induction false} WalkClassRegistersChildren(lang: Language, v: Json, name: string, reg: Registry)
    requires IsCompound(v)
    requires name !in Names(reg)
    ensures forall i :: 0 <= i < |Entries(v)| && NestsClass(Entries(v)[i].1) ==>
      NestedClassName(Entries(v)[i].0, Entries(v)[i].1) in Names(WalkClass(lang, v, name, reg))
  {
    WalkPrefixRegistersChildren(lang, v, |Entries(v)|, reg);
    AssignIsMapSet(WalkPrefix(lang, v, |Entries(v)|, reg), name, ClassBody(lang, name, v));
  }

  /** The property type of a nested class is its name, or a list of it. */
  lemma PropertyTypeOfNestedClass(lang: Language, key: string, value: Json)
    requires NestsClass(value)
    ensures PropertyType(lang, key, value) ==
      if value.Obj? then NestedClassName(key, value) else ListType(lang, NestedClassName(key, value))
  {
  }

  /** A property that nests no class gets the leaf mapping's type
      (`getCSharpType`, `getPythonType`), narrowed from `float` to `int`
      in Python for an integral number. */
  lemma PropertyTypeOfPlainValue(key: string, value: Json)
    requires !NestsClass(value)
    ensures PropertyType(CSharp, key, value) == CSharpType(value)
    ensures PropertyType(Python, key, value) ==
      if value.Num? && value.isInteger then "int" else PythonType(value)
  {
  }

  /** `int` is written exactly for a scalar integral number: a list of
      integers stays `List<int>` in C# but `List[float]` in Python, and
      no class name derived from a key can read `int`. */
  lemma {:induction false} PropertyTypeIntExactlyForIntegers(lang: Language, key: string, value: Json)
    ensures PropertyType(lang, key, value) == "int" <==> value.Num? && value.isInteger
  {
    var t := PropertyType(lang, key, value);
    if value.Obj? {
      if |key| > 0 {
        UpperCharNotLower(key[0]);
        assert t[0] != 'i';
      }
    } else if IsArrayOfCompound(value) {
      assert t[0] == 'L';
    } else if value.Arr? {
      assert t[0] == 'L';
    }
  }

  /** The floating-point name is written exactly for a non-integral
      number. */
  lemma {:induction false} PropertyTypeFloatExactlyForFractions(lang: Language, key: string, value: Json)
    ensures PropertyType(lang, key, value) == (if lang == CSharp then "double" else "float") <==>
      value.Num? && !value.isInteger
  {
    var t := PropertyType(lang, key, value);
    if value.Obj? {
      if |key| > 0 {
        UpperCharNotLower(key[0]);
        assert t[0] != 'd' && t[0] != 'f';
      }
    } else if IsArrayOfCompound(value) {
      assert t[0] == 'L';
    } else if value.Arr? {
      assert t[0] == 'L';
    }
  }
}
