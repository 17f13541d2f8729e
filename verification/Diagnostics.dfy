/** Precompile diagnostics: a position and a message. The message is kept as
    a kind with its parameters so that properties can count diagnostics by
    kind; `Message` renders each kind to the text the compilers emit. */
module Diagnostics {
  import opened Xml

  datatype DiagKind =
    // gradient animation, loading
    | MissingRequiredAttribute(attribute: string)
    | InterpolationNotInCData
    | MissingTargetInTargets
    | MissingTargets
    // gradient animation, compiling
    | VariableNotSupported(target: string)
    | ReadonlyNotSupported(target: string)
    | EventMissing(target: string)
    | PropertyDoesNotExist(target: string)
    | StructWithoutNumericMember(prefix: string, friendlyName: string, className: string)
    | NotNumericOrStruct(prefix: string, friendlyName: string, className: string)
    | TypeNotClass(typeName: string)
    | TypeDoesNotExist(typeName: string)
    // localized strings
    | RootNotLocalizedStrings
    | MissingAttributeIn(attribute: string, element: string)
    | UnknownElement(element: string, expected: string)
    | LocaleAlreadyExists(locale: string)
    | StringAlreadyExists(name: string)
    | DefaultLocaleUndefined(locale: string)
    | MissingStrings(locales: string, names: string)
    | UnnecessaryStrings(locales: string, names: string)
    // reported by the expression compiler that parses interpolation snippets
    | External(text: string)

  datatype Diag = Diag(pos: Pos, kind: DiagKind)

  function Quoted(s: string): string { "\"" + s + "\"" }

  /** The text of each diagnostic, as the compilers word it. */
  function Message(k: DiagKind): string
  {
    match k
    case MissingRequiredAttribute(a) => "Precompile: Missing required attribute: " + Quoted(a) + "."
    case InterpolationNotInCData => "Precompile: Interpolation function should be contained in a CDATA section."
    case MissingTargetInTargets => "Precompile: Missing required element: \"Target\" in \"Targets\"."
    case MissingTargets => "Precompile: Missing required element: \"Targets\"."
    case VariableNotSupported(t) =>
      "Precompile: Variable " + Quoted(t) + " is not supported. An writable property with event is expected."
    case ReadonlyNotSupported(t) =>
      "Precompile: Readonly property " + Quoted(t) + " is not supported. An writable property with event is expected."
    case EventMissing(t) =>
      "Precompile: Property " + Quoted(t) + " is not supported. An writable property with event is expected."
    case PropertyDoesNotExist(t) => "Precompile: Property " + Quoted(t) + " does not exist."
    case StructWithoutNumericMember(p, f, c) =>
      "Precompile: Property " + Quoted(p) + " of type " + Quoted(f) + " in class " + Quoted(c)
      + " is not supported. A struct should at least has one numeric primitive member to perform gradual changing."
    case NotNumericOrStruct(p, f, c) =>
      "Precompile: Property " + Quoted(p) + " of type " + Quoted(f) + " in class " + Quoted(c)
      + " is not supported. Only numeric types and structs are able to perform gradual changing."
    case TypeNotClass(t) => "Precompile: Type " + Quoted(t) + " is not a class."
    case TypeDoesNotExist(t) => "Precompile: Type " + Quoted(t) + " does not exist."
    case RootNotLocalizedStrings => "Precompile: The root element of localized strings should be \"LocalizedStrings\"."
    case MissingAttributeIn(a, e) => "Precompile: Missing attribute " + Quoted(a) + " in " + Quoted(e) + "."
    case UnknownElement(e, x) => "Precompile: Unknown element " + Quoted(e) + ", it should be " + Quoted(x) + "."
    case LocaleAlreadyExists(l) => "Precompile: Locale " + Quoted(l) + " already exists."
    case StringAlreadyExists(n) => "Precompile: String " + Quoted(n) + " already exists."
    case DefaultLocaleUndefined(l) => "Precompile: Strings for the default locale " + Quoted(l) + " is not defined."
    case MissingStrings(l, n) => "Precompile: Missing strings for locale " + Quoted(l) + ": " + n + "."
    case UnnecessaryStrings(l, n) => "Precompile: Unnecessary strings for locale " + Quoted(l) + ": " + n + "."
    case External(t) => t
  }

  /** The test "this diagnostic is of kind `k`". */
  function IsKind(k: DiagKind): DiagKind -> bool
  {
    x => x == k
  }

  /** Number of diagnostics in `ds` whose kind satisfies `p`. */
  function Count(ds: seq<Diag>, p: DiagKind -> bool): nat
  {
    if ds == [] then 0 else Count(ds[..|ds| - 1], p) + (if p(ds[|ds| - 1].kind) then 1 else 0)
  }

  /** Appending diagnostics in two steps is appending them in one. */
  lemma AppendAssoc(a: seq<Diag>, b: seq<Diag>, c: seq<Diag>)
    ensures a + b + c == a + (b + c)
  {
  }

  lemma {:induction false} CountAppend(a: seq<Diag>, b: seq<Diag>, p: DiagKind -> bool)
    ensures Count(a + b, p) == Count(a, p) + Count(b, p)
  {
    if b != [] {
      assert (a + b)[..|a + b| - 1] == a + b[..|b| - 1];
      CountAppend(a, b[..|b| - 1], p);
    } else {
      assert a + b == a;
    }
  }

  lemma CountAppend3(a: seq<Diag>, b: seq<Diag>, c: seq<Diag>, p: DiagKind -> bool)
    ensures Count(a + b + c, p) == Count(a, p) + Count(b, p) + Count(c, p)
  {
    CountAppend(a, b, p);
    CountAppend(a + b, c, p);
  }

  lemma CountSingle(d: Diag, p: DiagKind -> bool)
    ensures Count([d], p) == if p(d.kind) then 1 else 0
  {
    assert [d][..0] == [];
  }

  lemma {:induction false} CountUniform(ds: seq<Diag>, k: DiagKind, p: DiagKind -> bool)
    requires forall i :: 0 <= i < |ds| ==> ds[i].kind == k
    ensures Count(ds, p) == if p(k) then |ds| else 0
  {
    if ds != [] { CountUniform(ds[..|ds| - 1], k, p); }
  }

  lemma {:induction false} CountNone(ds: seq<Diag>, p: DiagKind -> bool)
    requires forall i :: 0 <= i < |ds| ==> !p(ds[i].kind)
    ensures Count(ds, p) == 0
  {
    if ds != [] { CountNone(ds[..|ds| - 1], p); }
  }

  lemma {:induction false} CountAll(ds: seq<Diag>, p: DiagKind -> bool)
    requires forall i :: 0 <= i < |ds| ==> p(ds[i].kind)
    ensures Count(ds, p) == |ds|
  {
    if ds != [] { CountAll(ds[..|ds| - 1], p); }
  }
}
