/**
 * How a routine name is classified. The same three switches appear in the
 * parsing helpers, in both server-side extractors and (as `resolveType`) in
 * the client; they are defined once here.
 */
module RoutineExtras {
  import opened Text
  import opened Lsp

  /** The name names a method: it contains `::`. */
  predicate IsMethodName(name: String)
  {
    Contains(name, "::")
  }

  /** The name names a class definition routine: it ends in `__define`, in any case. */
  predicate IsClassName(name: String)
  {
    EndsWith(LowerStr(name), "__define")
  }

  /** The suffix added to a routine's detail string. */
  function NameAdd(name: String): (r: String)
    ensures IsMethodName(name) ==> r == " method"
    ensures !IsMethodName(name) && IsClassName(name) ==> r == " (class definition)"
    ensures !IsMethodName(name) && !IsClassName(name) ==> r == ""
  {
    if IsMethodName(name) then " method"
    else if IsClassName(name) then " (class definition)"
    else ""
  }

  /** The symbol kind of a routine; it agrees with `NameAdd` case by case. */
  function RoutineType(name: String): (k: SymbolKind)
    ensures k == Method <==> NameAdd(name) == " method"
    ensures k == Class <==> NameAdd(name) == " (class definition)"
    ensures k == Function <==> NameAdd(name) == ""
    ensures k in {Method, Class, Function}
  {
    if IsMethodName(name) then Method
    else if IsClassName(name) then Class
    else Function
  }

  /** The completion item kind for a symbol kind: same-named kinds, and plain text otherwise. */
  function CompletionKindOf(k: SymbolKind): (r: CompletionItemKind)
    ensures r == MethodItem <==> k == Method
    ensures r == ClassItem <==> k == Class
    ensures r == FunctionItem <==> k == Function
    ensures r == VariableItem <==> k == Variable
    ensures r == TextItem <==> k == Constant
  {
    match k
    case Method => MethodItem
    case Class => ClassItem
    case Function => FunctionItem
    case Variable => VariableItem
    case Constant => TextItem
  }

  /** A name such as `myclass::init__define` is a method, not a class definition. */
  lemma MethodWinsOverClass()
    ensures RoutineType("myclass::init__define") == Method
  {
    assert OccursAt("myclass::init__define", "::", 7);
  }

  /** A `__define` suffix in any case, without `::`, marks a class definition. */
  lemma ClassSuffixExample()
    ensures NameAdd("MyClass__DEFINE") == " (class definition)"
  {
    var low := LowerStr("MyClass__DEFINE");
    assert low == "myclass__define";
    forall j: nat | j + 2 <= |"MyClass__DEFINE"| ensures !OccursAt("MyClass__DEFINE", "::", j) {
      assert "MyClass__DEFINE"[j..j + 2][0] == "MyClass__DEFINE"[j] != ':';
    }
  }

  /** Any other name is a plain function. */
  lemma PlainNameExample()
    ensures RoutineType("plot") == Function
  {
    forall j: nat | j + 2 <= |"plot"| ensures !OccursAt("plot", "::", j) {
      assert "plot"[j..j + 2][0] == "plot"[j] != ':';
    }
  }
}
