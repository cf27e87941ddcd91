/** The leaf type mappings `getCSharpType` and `getPythonType`, and the
    sampled type shape they both encode. */
module TypeMapping {
  import opened JsonValue
  import opened Wrappers

  /** The primitive kinds a JSON sample is mapped to. */
  datatype Kind = Unknown | Integer | Floating | Boolean | Text

  /** A type inferred from a single sample: a primitive, or a list whose
      element type is inferred from the list's first element alone. */
  datatype TypeShape = Primitive(kind: Kind) | ListOf(element: TypeShape)

  /** The shape a value is sampled as. An object counts as `Unknown`: the
      leaf mappings only give a placeholder for it. */
  function Shape(v: Json): TypeShape {
    match v
    case Null => Primitive(Unknown)
    case Bool(_) => Primitive(Boolean)
    case Num(isInteger) => Primitive(if isInteger then Integer else Floating)
    case Str(_) => Primitive(Text)
    case Arr(items) => ListOf(if |items| == 0 then Primitive(Unknown) else Shape(items[0]))
    case Obj(_) => Primitive(Unknown)
  }

  /** `getCSharpType` */
  function CSharpType(v: Json): string {
    match v
    case Null => "object"
    case Str(_) => "string"
    case Num(isInteger) => if isInteger then "int" else "double"
    case Bool(_) => "bool"
    case Arr(items) => if |items| == 0 then "List<object>" else "List<" + CSharpType(items[0]) + ">"
    case Obj(_) => "object"
  }

  /** `getPythonType`: numbers are always `float` here. */
  function PythonType(v: Json): string {
    match v
    case Null => "Any"
    case Str(_) => "str"
    case Num(_) => "float"
    case Bool(_) => "bool"
    case Arr(items) => if |items| == 0 then "List[Any]" else "List[" + PythonType(items[0]) + "]"
    case Obj(_) => "Any"
  }

  /** The shape with every integer widened to floating point, which is all
      the Python mapping can tell apart. */
  function Widen(t: TypeShape): (w: TypeShape)
    ensures !HasInteger(w)
  {
    match t
    case Primitive(k) => Primitive(if k == Integer then Floating else k)
    case ListOf(e) => ListOf(Widen(e))
  }

  predicate HasInteger(t: TypeShape) {
    match t
    case Primitive(k) => k == Integer
    case ListOf(e) => HasInteger(e)
  }

  /** Reads a C# type name written by `CSharpType` back into a shape. */
  function ParseCSharpType(s: string): Option<TypeShape>
    decreases |s|
  {
    if s == "object" then Some(Primitive(Unknown))
    else if s == "string" then Some(Primitive(Text))
    else if s == "int" then Some(Primitive(Integer))
    else if s == "double" then Some(Primitive(Floating))
    else if s == "bool" then Some(Primitive(Boolean))
    else if |s| >= 6 && s[..5] == "List<" && s[|s| - 1] == '>' then
      match ParseCSharpType(s[5..|s| - 1])
      case Some(t) => Some(ListOf(t))
      case None => None
    else None
  }

  /** Reads a Python type name written by `PythonType` back into a shape. */
  function ParsePythonType(s: string): Option<TypeShape>
    decreases |s|
  {
    if s == "Any" then Some(Primitive(Unknown))
    else if s == "str" then Some(Primitive(Text))
    else if s == "float" then Some(Primitive(Floating))
    else if s == "bool" then Some(Primitive(Boolean))
    else if |s| >= 6 && s[..5] == "List[" && s[|s| - 1] == ']' then
      match ParsePythonType(s[5..|s| - 1])
      case Some(t) => Some(ListOf(t))
      case None => None
    else None
  }

  /** The pieces of a type text written as `open + inner + close`. */
  lemma Wrapped(open: string, inner: string, close: string)
    requires |open| == 5 && |close| == 1
    ensures var s := open + inner + close;
      s[0] == open[0] && s[|s| - 1] == close[0] && s[..5] == open && s[5..|s| - 1] == inner
  {
    var s := open + inner + close;
    assert s[..5] == open;
    assert s[5..|s| - 1] == inner;
  }

  /** The C# type name records exactly the sampled shape: null and objects
      both read as `object`, and nothing past element 0 of an array is
      looked at. */
  lemma {:induction false} CSharpTypeRoundTrip(v: Json)
    ensures ParseCSharpType(CSharpType(v)) == Some(Shape(v))
  {
    if v.Arr? && |v.items| > 0 {
      var inner := CSharpType(v.items[0]);
      Wrapped("List<", inner, ">");
      CSharpTypeRoundTrip(v.items[0]);
    } else if v.Arr? {
      var s := "List<object>";
      assert s[..5] == "List<" && s[5..|s| - 1] == "object";
    }
  }

  /** The Python type name records the sampled shape with integers widened
      to `float`, so it never says `int`. */
  lemma {:induction false} PythonTypeRoundTrip(v: Json)
    ensures ParsePythonType(PythonType(v)) == Some(Widen(Shape(v)))
  {
    if v.Arr? && |v.items| > 0 {
      var inner := PythonType(v.items[0]);
      Wrapped("List[", inner, "]");
      PythonTypeRoundTrip(v.items[0]);
    } else if v.Arr? {
      var s := "List[Any]";
      assert s[..5] == "List[" && s[5..|s| - 1] == "Any";
    }
  }

  /** Two values get the same C# type exactly when their sampled shapes
      agree. */
  lemma {:induction false} CSharpTypeDeterminedByShape(v: Json, w: Json)
    ensures CSharpType(v) == CSharpType(w) <==> Shape(v) == Shape(w)
    decreases v
  {
    CSharpTypeRoundTrip(v);
    CSharpTypeRoundTrip(w);
    if Shape(v) == Shape(w) && v.Arr? && |v.items| > 0 {
      assert w.Arr?;
      if |w.items| > 0 {
        CSharpTypeDeterminedByShape(v.items[0], w.items[0]);
      } else {
        CSharpTypeDeterminedByShape(v.items[0], Null);
      }
    } else if Shape(v) == Shape(w) && v.Arr? {
      assert w.Arr?;
      if |w.items| > 0 {
        assert w.items[0].Null? || w.items[0].Obj?;
      }
    }
  }

  /** Two values get the same Python type exactly when their widened
      sampled shapes agree. */
  lemma {:induction false} PythonTypeDeterminedByShape(v: Json, w: Json)
    ensures PythonType(v) == PythonType(w) <==> Widen(Shape(v)) == Widen(Shape(w))
    decreases v
  {
    PythonTypeRoundTrip(v);
    PythonTypeRoundTrip(w);
    if Widen(Shape(v)) == Widen(Shape(w)) && v.Arr? && |v.items| > 0 {
      assert w.Arr?;
      if |w.items| > 0 {
        PythonTypeDeterminedByShape(v.items[0], w.items[0]);
      } else {
        PythonTypeDeterminedByShape(v.items[0], Null);
      }
    } else if Widen(Shape(v)) == Widen(Shape(w)) && v.Arr? {
      assert w.Arr?;
      if |w.items| > 0 {
        assert w.items[0].Null? || w.items[0].Obj?;
      }
    }
  }
}
