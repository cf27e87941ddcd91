/** Worked conversions: an object with a scalar, a list and a nested
    object, the empty object, integral against fractional numbers, and a
    root `[null]`.
    Expected texts are written with the line templates `ClassHeader`,
    `CSharpLine` and `PythonLine`, so each shows the type and the name a
    line carries. */
module ConverterExamples {
  import opened JsonValue
  import opened Naming
  import opened ClassMap
  import opened ClassWalk
  import opened Converters
  import opened TypeMapping

  /** `{}` under any root name: C# writes an empty class (there is no
      placeholder), Python writes `pass`. */
  lemma EmptyObject(rootClassName: string)
    ensures Convert(CSharp, Parsed(Obj([])), rootClassName) == ClassHeader(CSharp, rootClassName) + "}"
    ensures Convert(Python, Parsed(Obj([])), rootClassName) ==
      PythonHeader + ClassHeader(Python, rootClassName) + "    pass\n"
  {
    var v := Obj([]);
    assert Entries(v) == [];
    var cs := ClassBody(CSharp, rootClassName, v);
    var py := ClassBody(Python, rootClassName, v);
    assert WalkClass(CSharp, v, rootClassName, []) == [(rootClassName, cs)];
    assert WalkClass(Python, v, rootClassName, []) == [(rootClassName, py)];
    assert Reverse(Bodies([(rootClassName, cs)])) == [cs];
    assert Reverse(Bodies([(rootClassName, py)])) == [py];
  }

  /** `{"a": 5}` gets `int`, `{"a": 5.5}` gets `double` in C#. */
  lemma CSharpIntegralAndFractional()
    ensures PropertyLine(CSharp, "a", Num(true)) == CSharpLine("int", "A")
    ensures PropertyLine(CSharp, "a", Num(false)) == CSharpLine("double", "A")
  {
    assert ToPascalCase("a") == "A";
  }

  /** The same in Python: `int` and `float`; inside a list an integer still
      reads as `float`, because only a property's own number is narrowed. */
  lemma PythonIntegralAndFractional()
    ensures PropertyLine(Python, "a", Num(true)) == PythonLine("a", "int")
    ensures PropertyLine(Python, "a", Num(false)) == PythonLine("a", "float")
    ensures PropertyLine(Python, "a", Arr([Num(true)])) == PythonLine("a", "List[float]")
  {
    assert PropertyType(Python, "a", Arr([Num(true)])) == "List[" + "float" + "]";
  }

  /** A root `[null]` passes the `typeof` test and then makes
      `Object.entries(null)` throw, which is caught. */
  lemma RootNullElement(rootClassName: string)
    ensures Convert(CSharp, Parsed(Arr([Null])), rootClassName) == CSharpErrorPrefix + NullToObjectError
    ensures Convert(Python, Parsed(Arr([Null])), rootClassName) == PythonErrorPrefix + NullToObjectError
  {
  }

  /** The input `{"id": 1, "tags": ["a", "b"], "owner": {"name": "x"}}`,
      converted under the default root name. */
  const OwnerValue := Obj([("name", Str("x"))])
  const TagsValue := Arr([Str("a"), Str("b")])
  const ExampleValue := Obj([("id", Num(true)), ("tags", TagsValue), ("owner", OwnerValue)])

  const OwnerText := ClassHeader(CSharp, "Owner") + CSharpLine("string", "Name") + "}"
  const RootText :=
    ClassHeader(CSharp, DefaultRootClassName) +
    CSharpLine("int", "Id") +
    CSharpLine("List<string>", "Tags") +
    CSharpLine("Owner", "Owner") +
    "}"

  lemma OwnerClass()
    ensures ClassBody(CSharp, "Owner", OwnerValue) == OwnerText
  {
    assert ToPascalCase("name") == "Name";
    assert Entries(OwnerValue)[0] == ("name", Str("x"));
  }

  lemma RootLines()
    ensures PropertyLine(CSharp, "id", Num(true)) == CSharpLine("int", "Id")
    ensures PropertyLine(CSharp, "tags", TagsValue) == CSharpLine("List<string>", "Tags")
    ensures PropertyLine(CSharp, "owner", OwnerValue) == CSharpLine("Owner", "Owner")
  {
    assert ToPascalCase("id") == "Id";
    assert ToPascalCase("tags") == "Tags";
    assert ToPascalCase("owner") == "Owner";
    assert !IsArrayOfCompound(TagsValue);
    assert CSharpType(TagsValue) == "List<" + "string" + ">";
  }

  lemma RootClass()
    ensures ClassBody(CSharp, DefaultRootClassName, ExampleValue) == RootText
  {
    RootLines();
    var e := Entries(ExampleValue);
    assert e[0] == ("id", Num(true)) && e[1] == ("tags", TagsValue) && e[2] == ("owner", OwnerValue);
    var h := ClassHeader(CSharp, DefaultRootClassName);
    var l1 := CSharpLine("int", "Id");
    var l2 := CSharpLine("List<string>", "Tags");
    var l3 := CSharpLine("Owner", "Owner");
    assert ClassContent(CSharp, DefaultRootClassName, ExampleValue, 1) == h + l1;
    assert ClassContent(CSharp, DefaultRootClassName, ExampleValue, 2) == h + l1 + l2;
    assert ClassContent(CSharp, DefaultRootClassName, ExampleValue, 3) == h + l1 + l2 + l3;
  }

  /** The walk registers `Owner` before `Root`. */
  lemma ExampleRegistry()
    ensures WalkClass(CSharp, ExampleValue, DefaultRootClassName, []) ==
      [("Owner", ClassBody(CSharp, "Owner", OwnerValue)), (DefaultRootClassName, ClassBody(CSharp, DefaultRootClassName, ExampleValue))]
  {
    var e := Entries(ExampleValue);
    assert e[0] == ("id", Num(true)) && e[1] == ("tags", TagsValue) && e[2] == ("owner", OwnerValue);
    assert ToPascalCase("owner") == "Owner";
    assert WalkPrefix(CSharp, OwnerValue, 1, []) == [];
    var reg := [("Owner", ClassBody(CSharp, "Owner", OwnerValue))];
    assert WalkClass(CSharp, OwnerValue, "Owner", []) == reg;
    assert WalkPrefix(CSharp, ExampleValue, 1, []) == [];
    assert WalkPrefix(CSharp, ExampleValue, 2, []) == [];
    assert WalkPrefix(CSharp, ExampleValue, 3, []) == reg;
    assert DefaultRootClassName !in Names(reg);
  }

  /** After the reversal `Root` is emitted first and `Owner` after it. */
  lemma OwnerExample()
    ensures Convert(CSharp, Parsed(ExampleValue), DefaultRootClassName) == RootText + "\n\n" + OwnerText
  {
    ExampleRegistry();
    OwnerClass();
    RootClass();
    ConvertEmits(CSharp, Parsed(ExampleValue), DefaultRootClassName, ExampleValue);
    var reg := WalkClass(CSharp, ExampleValue, DefaultRootClassName, []);
    assert Bodies(reg) == [OwnerText, RootText];
    assert Reverse(Bodies(reg)) == [RootText, OwnerText];
    assert Emit(CSharp, reg) == Join([RootText, OwnerText], "\n\n");
    assert [RootText, OwnerText][1..] == [OwnerText];
    assert Join([OwnerText], "\n\n") == OwnerText;
  }

  /** `{"foo": {}, "x": {"foo": {"bar": {}}}}`: the inner `foo` is skipped,
      because `Foo` is already registered, so its `Bar` is never walked.
      Under the root name `Bar` the root is still emitted first. */
  const SkipValue := Obj([("foo", Obj([])), ("x", Obj([("foo", Obj([("bar", Obj([]))]))]))])

  lemma SkippedNameExample()
    ensures "Bar" in NestedNames(SkipValue)
    ensures "Bar" !in Names(WalkPrefix(CSharp, SkipValue, |Entries(SkipValue)|, []))
    ensures StartsWith(Convert(CSharp, Parsed(SkipValue), "Bar"), ClassBody(CSharp, "Bar", SkipValue))
  {
    var x := SkipValue.members[1].1;
    var foo := x.members[0].1;
    assert ToPascalCase("foo") == "Foo" && ToPascalCase("bar") == "Bar" && ToPascalCase("x") == "X";
    assert "Bar" in PropertyNestedNames("bar", Obj([]));
    assert "Bar" in NestedNames(foo);
    assert "Bar" in PropertyNestedNames("foo", foo);
    assert "Bar" in NestedNames(x);
    assert "Bar" in PropertyNestedNames("x", x);
    var r1 := WalkPrefix(CSharp, SkipValue, 1, []);
    assert r1 == [("Foo", ClassBody(CSharp, "Foo", Obj([])))];
    assert r1[0].0 == "Foo" && Entries(x)[0] == ("foo", foo);
    assert WalkPrefix(CSharp, x, 1, r1) == r1;
    var r2 := WalkPrefix(CSharp, SkipValue, 2, []);
    assert r2 == r1 + [("X", ClassBody(CSharp, "X", x))];
    assert |r2| == 2 && r2[0].0 == "Foo" && r2[1].0 == "X";
    ConvertRootFirst(CSharp, Parsed(SkipValue), "Bar", SkipValue);
    assert Preamble(CSharp) + ClassBody(CSharp, "Bar", SkipValue) == ClassBody(CSharp, "Bar", SkipValue);
  }
}
