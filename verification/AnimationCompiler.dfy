/** `GuiInstanceGradientAnimation::Compile`: resolves the animated type, checks
    every target, and emits a class with three state properties, an
    interpolation field and three functions whose bodies are derived from the
    leaf enumeration. The emitted code is described by its syntax tree only. */
module AnimationCompiler {
  import opened Basics
  import opened Xml
  import opened Diagnostics
  import opened Reflection
  import opened WorkflowAst
  import opened AnimationLoader
  import opened AnimationValidation
  import opened AnimationEnumeration

  /** What the snippet compiler (`Workflow_ParseExpression`) gives back for
      one snippet: the expression, none when it could not be parsed, and the
      messages it reports, each at its own position. */
  datatype Parsed = Parsed(expr: Option<Expr>, messages: seq<(Pos, string)>)

  /** The snippet compiler, called with the snippet and its position. */
  type Parser = (string, Pos) -> Parsed

  const BeginArg := "<animation>begin"
  const EndArg := "<animation>end"
  const CurrentArg := "<animation>current"
  const RatioArg := "<animation>ratio"
  const ScaleVar := "<animation>scale"
  const RefVar := "<animation>ref"
  const CurVar := "<animation>cur"
  const InterpolationField := "<animation>interpolation"

  /** Messages of the snippet compiler as diagnostics. */
  function Reported(messages: seq<(Pos, string)>): (r: seq<Diag>)
    ensures |r| == |messages|
    ensures forall i :: 0 <= i < |r| ==> r[i].pos == messages[i].0 && r[i].kind.External?
  {
    seq(|messages|, i requires 0 <= i < |messages| => Diag(messages[i].0, External(messages[i].1)))
  }

  /** A snippet is compiled only when it is not empty and an implementation is generated. */
  function SnippetErrors(text: string, pos: Pos, generateImpl: bool, parse: Parser): seq<Diag>
  {
    if text != "" && generateImpl then Reported(parse(text, pos).messages) else []
  }

  // ---------------------------------------------------------------------------
  // Checking the targets

  predicate IsCapabilityKind(k: DiagKind)
  {
    k.VariableNotSupported? || k.ReadonlyNotSupported? || k.EventMissing?
  }

  predicate IsMissingPropertyKind(k: DiagKind)
  {
    k.PropertyDoesNotExist?
  }

  predicate IsTypeKind(k: DiagKind)
  {
    k.TypeDoesNotExist? || k.TypeNotClass?
  }

  /** The capability check of a resolved target: one error for the first
      missing capability in the order getter, setter, value-changed event. */
  function CapabilityErrors(p: PropInfo, t: Target): (r: seq<Diag>)
    ensures |r| <= 1
    ensures r == [] <==> p.hasGetter && p.hasSetter && p.hasEvent
    ensures r != [] ==> r[0].pos == t.namePos && IsCapabilityKind(r[0].kind)
    ensures r != [] ==> (r[0].kind.VariableNotSupported? <==> !p.hasGetter)
    ensures r != [] ==> (r[0].kind.ReadonlyNotSupported? <==> p.hasGetter && !p.hasSetter)
  {
    if !p.hasGetter then [Diag(t.namePos, VariableNotSupported(t.name))]
    else if !p.hasSetter then [Diag(t.namePos, ReadonlyNotSupported(t.name))]
    else if !p.hasEvent then [Diag(t.namePos, EventMissing(t.name))]
    else []
  }

  /** The errors one target adds: an unresolved name is one error; a resolved
      one gets the capability check, root validation of its type under the
      property name, and the errors of its interpolation snippet. */
  function TargetErrors(td: TypeDesc, t: Target, typeName: string, generateImpl: bool, parse: Parser): seq<Diag>
  {
    match FindProperty(td, t.name)
    case None => [Diag(t.namePos, PropertyDoesNotExist(t.name))]
    case Some(p) =>
      CapabilityErrors(p, t) +
      ValidateType(t.namePos, p.returnType, p.name, typeName, true).errors +
      SnippetErrors(t.interpolation, t.interpolationPos, generateImpl, parse)
  }

  function TargetsErrors(td: TypeDesc, targets: seq<Target>, typeName: string, generateImpl: bool, parse: Parser): seq<Diag>
  {
    if targets == [] then []
    else
      TargetsErrors(td, targets[..|targets| - 1], typeName, generateImpl, parse) +
      TargetErrors(td, targets[|targets| - 1], typeName, generateImpl, parse)
  }

  lemma TargetsErrorsStep(td: TypeDesc, targets: seq<Target>, i: nat, typeName: string, generateImpl: bool, parse: Parser)
    requires i < |targets|
    ensures TargetsErrors(td, targets[..i + 1], typeName, generateImpl, parse) ==
            TargetsErrors(td, targets[..i], typeName, generateImpl, parse) + TargetErrors(td, targets[i], typeName, generateImpl, parse)
  {
    assert targets[..i + 1][..i] == targets[..i];
  }

  /** The errors `Compile` adds. */
  function CompileErrors(anim: GradientAnimation, types: map<string, TypeDesc>, generateImpl: bool, parse: Parser): seq<Diag>
  {
    if anim.typeName !in types then [Diag(anim.typePos, TypeDoesNotExist(anim.typeName))]
    else if !types[anim.typeName].flags.Class? then [Diag(anim.typePos, TypeNotClass(anim.typeName))]
    else ClassErrors(anim, types[anim.typeName], generateImpl, parse)
  }

  /** The errors added once the type resolved to a class: the interpolation
      snippet's first, then every target's in order. */
  function ClassErrors(anim: GradientAnimation, td: TypeDesc, generateImpl: bool, parse: Parser): seq<Diag>
  {
    SnippetErrors(anim.interpolation, anim.interpolationPos, generateImpl, parse) +
    TargetsErrors(td, anim.targets, anim.typeName, generateImpl, parse)
  }

  // ---------------------------------------------------------------------------
  // The emitted declarations

  /** The body of a function without an implementation. */
  function NotImplemented(): Stmt
  {
    Block([Raise(StringLit("Not Implemented"))])
  }

  /** The interpolation when none is given: `[$1]`. */
  function Identity(): Expr
  {
    OrderedLambda(OrderedName("$1"))
  }

  /** `prop <name> : <type> = <default> {}`, writable and observable. */
  function StateProperty(name: string, td: TypeDesc): Decl
  {
    AutoProperty(name, SharedPtrOf(td.name), DefaultValue(SharedPtrOf(td.name)), true, true)
  }

  function InterpolationInit(anim: GradientAnimation, generateImpl: bool, parse: Parser): Option<Expr>
  {
    if anim.interpolation == "" || !generateImpl then Some(Identity())
    else parse(anim.interpolation, anim.interpolationPos).expr
  }

  function StateArgs(td: TypeDesc): seq<Arg>
  {
    [Arg(BeginArg, SharedPtrOf(td.name)), Arg(EndArg, SharedPtrOf(td.name)), Arg(CurrentArg, SharedPtrOf(td.name))]
  }

  /** `var <variable> = Math.Abs(cast double accessor(first) - cast double accessor(second))`. */
  function Distance(first: string, second: string, variable: string, path: seq<string>): Stmt
  {
    VarDecl(variable, Call(MathMember("Abs"), [
      Binary(Sub, StrongCast(Access(path, Ref(first)), DoubleType), StrongCast(Access(path, Ref(second)), DoubleType))]))
  }

  /** The sub-block `GetTimeScale` emits for one leaf. */
  function ScaleBlock(l: Leaf): Stmt
  {
    Block([
      Distance(BeginArg, EndArg, RefVar, l.path),
      Distance(CurrentArg, EndArg, CurVar, l.path),
      ExprStmt(Binary(Assign, Ref(ScaleVar), Call(MathMember("Max"), [Ref(ScaleVar), Binary(Div, Ref(CurVar), Ref(RefVar))])))])
  }

  function ScaleBlocks(leaves: seq<Leaf>): seq<Stmt>
  {
    if leaves == [] then [] else ScaleBlocks(leaves[..|leaves| - 1]) + [ScaleBlock(leaves[|leaves| - 1])]
  }

  function ScaleDecl(): Stmt
  {
    VarDecl(ScaleVar, FloatLit("0.0"))
  }

  function ScaleReturn(): Stmt
  {
    Return(Call(MathMember("Min"), [FloatLit("1.0"), Ref(ScaleVar)]))
  }

  function TimeScaleBody(leaves: seq<Leaf>): Stmt
  {
    Block([ScaleDecl()] + ScaleBlocks(leaves) + [ScaleReturn()])
  }

  /** `cast double accessor(<animation>begin)`. */
  function BeginValue(path: seq<string>): Expr
  {
    StrongCast(Access(path, Ref(BeginArg)), DoubleType)
  }

  /** The local `Interpolate` declares for one leaf. */
  function Lerp(l: Leaf): Stmt
  {
    VarDecl("<animation>" + Underscored(l.path),
      StrongCast(
        Binary(Add,
          Binary(Mul, BeginValue(l.path), Ref(RatioArg)),
          Binary(Mul, BeginValue(l.path), Binary(Sub, FloatLit("1.0"), Ref(RatioArg)))),
        ValueOf(l.prop.returnType.name)))
  }

  function Lerps(leaves: seq<Leaf>): seq<Stmt>
  {
    if leaves == [] then [] else Lerps(leaves[..|leaves| - 1]) + [Lerp(leaves[|leaves| - 1])]
  }

  /** The body of `Interpolate(<animation>ratio)`. */
  function Forward(): Stmt
  {
    Block([ExprStmt(Call(Ref("Interpolate"), [Ref("Begin"), Ref("End"), Ref("Begin"), Ref(RatioArg)]))])
  }

  /** The state properties and the interpolation field. */
  function Fields(anim: GradientAnimation, td: TypeDesc, generateImpl: bool, parse: Parser): seq<Decl>
  {
    [ StateProperty("Begin", td),
      StateProperty("End", td),
      StateProperty("Current", td),
      Variable(InterpolationField, DoubleToDouble, InterpolationInit(anim, generateImpl, parse), [("cpp", "Private")])
    ]
  }

  /** `GetTimeScale`, `Interpolate` with four arguments and `Interpolate` with one. */
  function Functions(anim: GradientAnimation, td: TypeDesc, generateImpl: bool): seq<Decl>
    requires generateImpl ==> Resolves(td, anim.targets)
  {
    [ Function("GetTimeScale", StateArgs(td), DoubleType,
        if generateImpl then TimeScaleBody(PropertiesLeaves(td, anim.targets)) else NotImplemented()),
      Function("Interpolate", StateArgs(td) + [Arg(RatioArg, DoubleType)], VoidType,
        if generateImpl then Block(Lerps(PropertiesLeaves(td, anim.targets))) else NotImplemented()),
      Function("Interpolate", [Arg(RatioArg, DoubleType)], VoidType,
        if generateImpl then Forward() else NotImplemented())
    ]
  }

  /** The seven declarations of the emitted class, in order. */
  function Declarations(anim: GradientAnimation, td: TypeDesc, generateImpl: bool, parse: Parser): seq<Decl>
    requires generateImpl ==> Resolves(td, anim.targets)
  {
    Fields(anim, td, generateImpl, parse) + Functions(anim, td, generateImpl)
  }

  /** The precondition of body generation: every target of a class-typed
      animation must resolve when an implementation is generated. */
  predicate Compilable(anim: GradientAnimation, types: map<string, TypeDesc>, generateImpl: bool)
  {
    generateImpl && anim.typeName in types && types[anim.typeName].flags.Class? ==>
      Resolves(types[anim.typeName], anim.targets)
  }

  /** The module `Compile` returns. */
  function Compiled(anim: GradientAnimation, types: map<string, TypeDesc>, moduleName: string, generateImpl: bool, parse: Parser): Option<Module>
    requires Compilable(anim, types, generateImpl)
  {
    if anim.typeName !in types || !types[anim.typeName].flags.Class? then None
    else Some(ClassModule(anim, types[anim.typeName], moduleName, generateImpl, parse))
  }

  /** A module holding the one emitted class. */
  function ClassModule(anim: GradientAnimation, td: TypeDesc, moduleName: string, generateImpl: bool, parse: Parser): Module
    requires generateImpl ==> Resolves(td, anim.targets)
  {
    Module(moduleName, [ClassDecl(anim.className, Declarations(anim, td, generateImpl, parse))])
  }

  // ---------------------------------------------------------------------------
  // The compiler

  /** The checks of one target, as the loop over the targets runs them. */
  method CheckTarget(td: TypeDesc, t: Target, typeName: string, generateImpl: bool, parse: Parser, errors: seq<Diag>)
    returns (errs: seq<Diag>)
    ensures errs == errors + TargetErrors(td, t, typeName, generateImpl, parse)
  {
    var found := FindProperty(td, t.name);
    if found.None? {
      return errors + [Diag(t.namePos, PropertyDoesNotExist(t.name))];
    }
    var p := found.value;
    errs := errors;
    if !p.hasGetter {
      errs := errs + [Diag(t.namePos, VariableNotSupported(t.name))];
    } else if !p.hasSetter {
      errs := errs + [Diag(t.namePos, ReadonlyNotSupported(t.name))];
    } else if !p.hasEvent {
      errs := errs + [Diag(t.namePos, EventMissing(t.name))];
    }
    ghost var capabilities := CapabilityErrors(p, t);
    ghost var shape := ValidateType(t.namePos, p.returnType, p.name, typeName, true).errors;
    assert errs == errors + capabilities;
    var count;
    count, errs := ValidatePropertyType(t.namePos, p.returnType, p.name, typeName, errs, true);
    AppendAssoc(errors, capabilities, shape);
    if t.interpolation != "" && generateImpl {
      var parsed := parse(t.interpolation, t.interpolationPos);
      errs := errs + Reported(parsed.messages);
    }
    AppendAssoc(errors, capabilities + shape, SnippetErrors(t.interpolation, t.interpolationPos, generateImpl, parse));
  }

  /** The `_`-joined member names of an accessor chain, read from the outside in. */
  method ChainName(e: Expr) returns (name: string)
    ensures name == MemberChainName(e)
  {
    name := "";
    var chain := e;
    while chain.Member?
      invariant MemberChainName(e) == MemberChainName(chain) + name
      decreases chain
    {
      name := "_" + chain.name + name;
      chain := chain.parent;
    }
  }

  /** The `GetTimeScale` body, one sub-block per callback of the enumeration. */
  method BuildTimeScale(leaves: seq<Leaf>) returns (body: Stmt)
    ensures body == TimeScaleBody(leaves)
  {
    var statements := [ScaleDecl()];
    var i := 0;
    while i < |leaves|
      invariant 0 <= i <= |leaves|
      invariant statements == [ScaleDecl()] + ScaleBlocks(leaves[..i])
    {
      var path := leaves[i].path;
      var sub: seq<Stmt> := [];
      sub := sub + [Distance(BeginArg, EndArg, RefVar, path)];
      sub := sub + [Distance(CurrentArg, EndArg, CurVar, path)];
      sub := sub + [ExprStmt(Binary(Assign, Ref(ScaleVar), Call(MathMember("Max"), [Ref(ScaleVar), Binary(Div, Ref(CurVar), Ref(RefVar))])))];
      assert sub == ScaleBlock(leaves[i]).statements;
      statements := statements + [Block(sub)];
      assert leaves[..i + 1][..i] == leaves[..i];
      assert ScaleBlocks(leaves[..i + 1]) == ScaleBlocks(leaves[..i]) + [ScaleBlock(leaves[i])];
      i := i + 1;
    }
    assert leaves[..|leaves|] == leaves;
    body := Block(statements + [ScaleReturn()]);
  }

  /** The `Interpolate` body: one local per callback, named after the member
      chain read back from the accessor applied to `<animation>begin`. */
  method BuildInterpolate(leaves: seq<Leaf>) returns (body: Stmt)
    ensures body == Block(Lerps(leaves))
  {
    var statements: seq<Stmt> := [];
    var i := 0;
    while i < |leaves|
      invariant 0 <= i <= |leaves|
      invariant statements == Lerps(leaves[..i])
    {
      var l := leaves[i];
      var propChain := Access(l.path, Ref(BeginArg));
      var part1 := Binary(Mul, StrongCast(propChain, DoubleType), Ref(RatioArg));
      var part2 := Binary(Mul, StrongCast(Access(l.path, Ref(BeginArg)), DoubleType), Binary(Sub, FloatLit("1.0"), Ref(RatioArg)));
      var castExpr := StrongCast(Binary(Add, part1, part2), ValueOf(l.prop.returnType.name));
      var name := ChainName(propChain);
      ChainOfAccess(l.path, BeginArg);
      statements := statements + [VarDecl("<animation>" + name, castExpr)];
      assert leaves[..i + 1][..i] == leaves[..i];
      assert Lerps(leaves[..i + 1]) == Lerps(leaves[..i]) + [Lerp(leaves[i])];
      i := i + 1;
    }
    assert leaves[..|leaves|] == leaves;
    body := Block(statements);
  }

  /** The interpolation field's initializer: the identity, or the compiled snippet. */
  method CompileInterpolation(anim: GradientAnimation, generateImpl: bool, parse: Parser, errors: seq<Diag>)
    returns (init: Option<Expr>, errs: seq<Diag>)
    ensures init == InterpolationInit(anim, generateImpl, parse)
    ensures errs == errors + SnippetErrors(anim.interpolation, anim.interpolationPos, generateImpl, parse)
  {
    errs := errors;
    if anim.interpolation == "" || !generateImpl {
      init := Some(Identity());
    } else {
      var parsed := parse(anim.interpolation, anim.interpolationPos);
      init := parsed.expr;
      errs := errs + Reported(parsed.messages);
    }
  }

  /** The loop over the targets. */
  method CheckTargets(td: TypeDesc, targets: seq<Target>, typeName: string, generateImpl: bool, parse: Parser, errors: seq<Diag>)
    returns (errs: seq<Diag>)
    ensures errs == errors + TargetsErrors(td, targets, typeName, generateImpl, parse)
  {
    errs := errors;
    var i := 0;
    while i < |targets|
      invariant 0 <= i <= |targets|
      invariant errs == errors + TargetsErrors(td, targets[..i], typeName, generateImpl, parse)
    {
      ghost var before := errs;
      errs := CheckTarget(td, targets[i], typeName, generateImpl, parse, errs);
      TargetsErrorsStep(td, targets, i, typeName, generateImpl, parse);
      AppendAssoc(errors, TargetsErrors(td, targets[..i], typeName, generateImpl, parse), TargetErrors(td, targets[i], typeName, generateImpl, parse));
      i := i + 1;
    }
    assert targets[..|targets|] == targets;
  }

  /** The three emitted functions, with generated or "Not Implemented" bodies. */
  method EmitFunctions(anim: GradientAnimation, td: TypeDesc, generateImpl: bool) returns (functions: seq<Decl>)
    requires generateImpl ==> Resolves(td, anim.targets)
    ensures functions == Functions(anim, td, generateImpl)
  {
    var timeScale, interpolate, forward;
    if generateImpl {
      var leaves := PropertiesLeaves(td, anim.targets);
      timeScale := BuildTimeScale(leaves);
      interpolate := BuildInterpolate(leaves);
      forward := Forward();
    } else {
      timeScale, interpolate, forward := NotImplemented(), NotImplemented(), NotImplemented();
    }
    functions := [Function("GetTimeScale", StateArgs(td), DoubleType, timeScale)];
    functions := functions + [Function("Interpolate", StateArgs(td) + [Arg(RatioArg, DoubleType)], VoidType, interpolate)];
    functions := functions + [Function("Interpolate", [Arg(RatioArg, DoubleType)], VoidType, forward)];
  }

  /** The three state properties, then the interpolation field. */
  method EmitFields(anim: GradientAnimation, td: TypeDesc, generateImpl: bool, parse: Parser, errors: seq<Diag>)
    returns (fields: seq<Decl>, errs: seq<Diag>)
    ensures fields == Fields(anim, td, generateImpl, parse)
    ensures errs == errors + SnippetErrors(anim.interpolation, anim.interpolationPos, generateImpl, parse)
  {
    fields := [];
    fields := fields + [StateProperty("Begin", td)];
    fields := fields + [StateProperty("End", td)];
    fields := fields + [StateProperty("Current", td)];
    var init;
    init, errs := CompileInterpolation(anim, generateImpl, parse, errors);
    fields := fields + [Variable(InterpolationField, DoubleToDouble, init, [("cpp", "Private")])];
  }

  /** The class `Compile` installs for a class-typed animation. */
  method CompileClass(anim: GradientAnimation, td: TypeDesc, moduleName: string, generateImpl: bool, parse: Parser, errors: seq<Diag>)
    returns (m: Module, errs: seq<Diag>)
    requires generateImpl ==> Resolves(td, anim.targets)
    ensures m == ClassModule(anim, td, moduleName, generateImpl, parse)
    ensures errs == errors + ClassErrors(anim, td, generateImpl, parse)
  {
    var fields;
    fields, errs := EmitFields(anim, td, generateImpl, parse, errors);
    ghost var afterFields := errs;
    errs := CheckTargets(td, anim.targets, anim.typeName, generateImpl, parse, errs);
    AppendAssoc(errors, SnippetErrors(anim.interpolation, anim.interpolationPos, generateImpl, parse),
                TargetsErrors(td, anim.targets, anim.typeName, generateImpl, parse));
    var functions := EmitFunctions(anim, td, generateImpl);
    m := Module(moduleName, [ClassDecl(anim.className, fields + functions)]);
  }

  /** `Compile(precompileContext, moduleName, generateImpl, errors)`. */
  method Compile(anim: GradientAnimation, types: map<string, TypeDesc>, moduleName: string, generateImpl: bool, parse: Parser, errors: seq<Diag>)
    returns (compiled: Option<Module>, errs: seq<Diag>)
    requires Compilable(anim, types, generateImpl)
    ensures compiled == Compiled(anim, types, moduleName, generateImpl, parse)
    ensures errs == errors + CompileErrors(anim, types, generateImpl, parse)
  {
    if anim.typeName !in types {
      return None, errors + [Diag(anim.typePos, TypeDoesNotExist(anim.typeName))];
    }
    var td := types[anim.typeName];
    if !td.flags.Class? {
      return None, errors + [Diag(anim.typePos, TypeNotClass(anim.typeName))];
    }
    var m;
    m, errs := CompileClass(anim, td, moduleName, generateImpl, parse, errors);
    compiled := Some(m);
  }

  // ---------------------------------------------------------------------------
  // Properties of the checks

  /** The kinds of error the check of one target can add. */
  predicate IsTargetKind(k: DiagKind)
  {
    IsMissingPropertyKind(k) || IsCapabilityKind(k) || k.NotNumericOrStruct? || k.StructWithoutNumericMember? || k.External?
  }

  lemma ReportedKinds(messages: seq<(Pos, string)>, p: DiagKind -> bool)
    requires forall text :: !p(External(text))
    ensures Count(Reported(messages), p) == 0
  {
    CountNone(Reported(messages), p);
  }

  /** An unresolved target costs exactly one error. A resolved one gets no
      missing-property error, one capability error exactly when a capability
      is missing, and one empty-struct error exactly when its type is a
      struct without a numeric leaf. */
  lemma TargetOutcome(td: TypeDesc, t: Target, typeName: string, generateImpl: bool, parse: Parser)
    ensures FindProperty(td, t.name).None? ==>
      TargetErrors(td, t, typeName, generateImpl, parse) == [Diag(t.namePos, PropertyDoesNotExist(t.name))]
    ensures FindProperty(td, t.name).Some? ==>
      var p := FindProperty(td, t.name).value;
      var errs := TargetErrors(td, t, typeName, generateImpl, parse);
      Count(errs, IsMissingPropertyKind) == 0 &&
      Count(errs, IsCapabilityKind) == (if p.hasGetter && p.hasSetter && p.hasEvent then 0 else 1) &&
      Count(errs, IsEmptyStructKind)
        == (if p.returnType.flags.Struct? && ValidateType(t.namePos, p.returnType, p.name, typeName, false).count == 0 then 1 else 0)
  {
    if FindProperty(td, t.name).Some? {
      ResolvedTargetCounts(FindProperty(td, t.name).value, t, typeName, generateImpl, parse);
    }
  }

  lemma ResolvedTargetCounts(p: PropInfo, t: Target, typeName: string, generateImpl: bool, parse: Parser)
    ensures var errs := CapabilityErrors(p, t) + ValidateType(t.namePos, p.returnType, p.name, typeName, true).errors
                        + SnippetErrors(t.interpolation, t.interpolationPos, generateImpl, parse);
      Count(errs, IsMissingPropertyKind) == 0 &&
      Count(errs, IsCapabilityKind) == (if p.hasGetter && p.hasSetter && p.hasEvent then 0 else 1) &&
      Count(errs, IsEmptyStructKind)
        == (if p.returnType.flags.Struct? && ValidateType(t.namePos, p.returnType, p.name, typeName, false).count == 0 then 1 else 0)
  {
    var caps := CapabilityErrors(p, t);
    var shape := ValidateType(t.namePos, p.returnType, p.name, typeName, true).errors;
    var snippet := SnippetErrors(t.interpolation, t.interpolationPos, generateImpl, parse);
    ValidateTypeShape(t.namePos, p.returnType, p.name, typeName, true);
    assert Count(caps + shape + snippet, IsMissingPropertyKind) == 0 by {
      CountNone(caps, IsMissingPropertyKind);
      CountNone(shape, IsMissingPropertyKind);
      CountNone(snippet, IsMissingPropertyKind);
      CountAppend3(caps, shape, snippet, IsMissingPropertyKind);
    }
    assert Count(caps + shape + snippet, IsCapabilityKind) == |caps| by {
      CountUniformCapability(caps);
      CountNone(shape, IsCapabilityKind);
      CountNone(snippet, IsCapabilityKind);
      CountAppend3(caps, shape, snippet, IsCapabilityKind);
    }
    assert Count(caps + shape + snippet, IsEmptyStructKind) == Count(shape, IsEmptyStructKind) by {
      CountNone(caps, IsEmptyStructKind);
      CountNone(snippet, IsEmptyStructKind);
      CountAppend3(caps, shape, snippet, IsEmptyStructKind);
    }
    RootEmptyStruct(t.namePos, p.returnType, p.name, typeName);
    RootOnlyAddsEmptyStructError(t.namePos, p.returnType, p.name, typeName);
  }

  lemma CountUniformCapability(caps: seq<Diag>)
    requires |caps| <= 1 && forall i :: 0 <= i < |caps| ==> IsCapabilityKind(caps[i].kind)
    ensures Count(caps, IsCapabilityKind) == |caps|
  {
    if caps != [] {
      assert caps == [caps[0]];
      CountSingle(caps[0], IsCapabilityKind);
    }
  }

  /** Every error a target adds is of a target kind, never a type error. */
  lemma TargetErrorsKinds(td: TypeDesc, t: Target, typeName: string, generateImpl: bool, parse: Parser)
    ensures forall i :: 0 <= i < |TargetErrors(td, t, typeName, generateImpl, parse)| ==>
      IsTargetKind(TargetErrors(td, t, typeName, generateImpl, parse)[i].kind)
  {
    if FindProperty(td, t.name).Some? {
      var p := FindProperty(td, t.name).value;
      ValidateTypeShape(t.namePos, p.returnType, p.name, typeName, true);
    }
  }

  lemma {:induction false} TargetsErrorsKinds(td: TypeDesc, targets: seq<Target>, typeName: string, generateImpl: bool, parse: Parser)
    ensures forall i :: 0 <= i < |TargetsErrors(td, targets, typeName, generateImpl, parse)| ==>
      IsTargetKind(TargetsErrors(td, targets, typeName, generateImpl, parse)[i].kind)
  {
    if targets != [] {
      TargetsErrorsKinds(td, targets[..|targets| - 1], typeName, generateImpl, parse);
      TargetErrorsKinds(td, targets[|targets| - 1], typeName, generateImpl, parse);
    }
  }

  /** The number of targets naming no property of the type. */
  function Unresolved(td: TypeDesc, targets: seq<Target>): nat
  {
    if targets == [] then 0
    else Unresolved(td, targets[..|targets| - 1]) + if FindProperty(td, targets[|targets| - 1].name).None? then 1 else 0
  }

  /** One missing-property error per target that does not resolve. */
  lemma {:induction false} MissingPropertyCount(td: TypeDesc, targets: seq<Target>, typeName: string, generateImpl: bool, parse: Parser)
    ensures Count(TargetsErrors(td, targets, typeName, generateImpl, parse), IsMissingPropertyKind) == Unresolved(td, targets)
  {
    if targets != [] {
      var init, last := targets[..|targets| - 1], targets[|targets| - 1];
      MissingPropertyCount(td, init, typeName, generateImpl, parse);
      TargetOutcome(td, last, typeName, generateImpl, parse);
      CountAppend(TargetsErrors(td, init, typeName, generateImpl, parse), TargetErrors(td, last, typeName, generateImpl, parse), IsMissingPropertyKind);
      if FindProperty(td, last.name).None? {
        CountSingle(Diag(last.namePos, PropertyDoesNotExist(last.name)), IsMissingPropertyKind);
      }
    }
  }

  /** No missing-property error exactly when every target resolves. */
  lemma {:induction false} UnresolvedNone(td: TypeDesc, targets: seq<Target>)
    ensures Unresolved(td, targets) == 0 <==> Resolves(td, targets)
  {
    if targets != [] {
      var init, last := targets[..|targets| - 1], targets[|targets| - 1];
      UnresolvedNone(td, init);
      if Resolves(td, init) && FindProperty(td, last.name).Some? {
        forall i | 0 <= i < |targets| ensures FindProperty(td, targets[i].name).Some? {
          if i < |init| { assert targets[i] == init[i]; }
        }
      }
      if !Resolves(td, init) {
        var i :| 0 <= i < |init| && FindProperty(td, init[i].name).None?;
        assert targets[i] == init[i];
      }
    }
  }

  /** Once the type is a class, no type error is added, and there is one
      missing-property error per unresolved target. */
  lemma ClassErrorsCounts(anim: GradientAnimation, td: TypeDesc, generateImpl: bool, parse: Parser)
    ensures Count(ClassErrors(anim, td, generateImpl, parse), IsTypeKind) == 0
    ensures Count(ClassErrors(anim, td, generateImpl, parse), IsMissingPropertyKind) == Unresolved(td, anim.targets)
  {
    var snippet := SnippetErrors(anim.interpolation, anim.interpolationPos, generateImpl, parse);
    var targets := TargetsErrors(td, anim.targets, anim.typeName, generateImpl, parse);
    CountNone(snippet, IsTypeKind);
    CountNone(snippet, IsMissingPropertyKind);
    TargetsErrorsKinds(td, anim.targets, anim.typeName, generateImpl, parse);
    CountNone(targets, IsTypeKind);
    MissingPropertyCount(td, anim.targets, anim.typeName, generateImpl, parse);
    CountAppend(snippet, targets, IsTypeKind);
    CountAppend(snippet, targets, IsMissingPropertyKind);
  }

  /** A type that does not exist, or is not a class, is one error and no
      module; a class gives a module named `moduleName` holding one class
      named after `ref.Class` with its seven declarations, and no type error.
      A module is returned exactly when no type error was added. */
  lemma CompileOutcome(anim: GradientAnimation, types: map<string, TypeDesc>, moduleName: string, generateImpl: bool, parse: Parser)
    requires Compilable(anim, types, generateImpl)
    ensures anim.typeName !in types ==>
      Compiled(anim, types, moduleName, generateImpl, parse) == None &&
      CompileErrors(anim, types, generateImpl, parse) == [Diag(anim.typePos, TypeDoesNotExist(anim.typeName))]
    ensures anim.typeName in types && !types[anim.typeName].flags.Class? ==>
      Compiled(anim, types, moduleName, generateImpl, parse) == None &&
      CompileErrors(anim, types, generateImpl, parse) == [Diag(anim.typePos, TypeNotClass(anim.typeName))]
    ensures anim.typeName in types && types[anim.typeName].flags.Class? ==>
      var m := Compiled(anim, types, moduleName, generateImpl, parse);
      m.Some? && m.value.name == moduleName && |m.value.classes| == 1 &&
      m.value.classes[0].name == anim.className && |m.value.classes[0].declarations| == 7
    ensures Compiled(anim, types, moduleName, generateImpl, parse).Some?
      <==> Count(CompileErrors(anim, types, generateImpl, parse), IsTypeKind) == 0
  {
    var errs := CompileErrors(anim, types, generateImpl, parse);
    if anim.typeName !in types {
      CountSingle(errs[0], IsTypeKind);
    } else if !types[anim.typeName].flags.Class? {
      CountSingle(errs[0], IsTypeKind);
    } else {
      ClassErrorsCounts(anim, types[anim.typeName], generateImpl, parse);
      DeclarationShape(anim, types[anim.typeName], generateImpl, parse);
    }
  }

  // ---------------------------------------------------------------------------
  // Properties of the emitted class

  /** A declaration with its body or initializer left out. */
  function Signature(d: Decl): Decl
  {
    match d
    case Function(name, arguments, returnType, _) => Function(name, arguments, returnType, Block([]))
    case Variable(name, varType, _, attributes) => Variable(name, varType, None, attributes)
    case AutoProperty(_, _, _, _, _) => d
  }

  /** The class holds, in order, the state properties `Begin`, `End` and
      `Current` of the animated type, the private interpolation field, and
      `GetTimeScale` and two `Interpolate` overloads that only the number of
      arguments tells apart; none of these signatures depends on whether an
      implementation is generated. */
  lemma DeclarationShape(anim: GradientAnimation, td: TypeDesc, generateImpl: bool, parse: Parser)
    requires generateImpl ==> Resolves(td, anim.targets)
    ensures var ds := Declarations(anim, td, generateImpl, parse);
      |ds| == 7 &&
      ds[0].name == "Begin" && ds[1].name == "End" && ds[2].name == "Current" &&
      ds[3].name == InterpolationField && ds[4].name == "GetTimeScale" &&
      ds[5].name == "Interpolate" && ds[6].name == "Interpolate" &&
      (forall i :: 0 <= i < 3 ==> ds[i].AutoProperty? && ds[i].propType == SharedPtrOf(td.name) && ds[i].writable && ds[i].observable) &&
      ds[3].Variable? && ds[3].attributes == [("cpp", "Private")] &&
      (forall i :: 4 <= i < 7 ==> ds[i].Function?) &&
      |ds[4].arguments| == 3 && |ds[5].arguments| == 4 && |ds[6].arguments| == 1
  {
    var fs, gs := Fields(anim, td, generateImpl, parse), Functions(anim, td, generateImpl);
    var ds := Declarations(anim, td, generateImpl, parse);
    assert ds == fs + gs;
    assert ds[..4] == fs && ds[4..] == gs;
  }

  /** Generating an implementation changes bodies and the interpolation
      field's initializer only. */
  lemma SignaturesWithoutImpl(anim: GradientAnimation, td: TypeDesc, generateImpl: bool, parse: Parser)
    requires generateImpl ==> Resolves(td, anim.targets)
    ensures |Declarations(anim, td, generateImpl, parse)| == |Declarations(anim, td, false, parse)|
    ensures forall i :: 0 <= i < |Declarations(anim, td, false, parse)| ==>
      Signature(Declarations(anim, td, generateImpl, parse)[i]) == Signature(Declarations(anim, td, false, parse)[i])
  {
    var fs, gs := Fields(anim, td, generateImpl, parse), Functions(anim, td, generateImpl);
    var fs', gs' := Fields(anim, td, false, parse), Functions(anim, td, false);
    assert forall i :: 0 <= i < 4 ==> Signature(fs[i]) == Signature(fs'[i]);
    assert forall i :: 0 <= i < 3 ==> Signature(gs[i]) == Signature(gs'[i]);
    assert Declarations(anim, td, generateImpl, parse) == fs + gs;
    assert Declarations(anim, td, false, parse) == fs' + gs';
  }

  /** Two declarations of the class with the same name are functions with
      different numbers of arguments. */
  lemma OverloadsDistinct(anim: GradientAnimation, td: TypeDesc, generateImpl: bool, parse: Parser)
    requires generateImpl ==> Resolves(td, anim.targets)
    ensures var ds := Declarations(anim, td, generateImpl, parse);
      forall i, j :: 0 <= i < j < |ds| && ds[i].name == ds[j].name ==>
        ds[i].Function? && ds[j].Function? && |ds[i].arguments| != |ds[j].arguments|
  {
    var ds := Declarations(anim, td, generateImpl, parse);
    DeclarationShape(anim, td, generateImpl, parse);
    assert |ds[0].name| == 5 && |ds[1].name| == 3 && |ds[2].name| == 7 && |ds[3].name| == 24;
    assert |ds[4].name| == 12 && |ds[5].name| == 11 && |ds[6].name| == 11;
  }

  lemma {:induction false} TargetsErrorsWithoutImpl(td: TypeDesc, targets: seq<Target>, typeName: string, parse: Parser, other: Parser)
    ensures TargetsErrors(td, targets, typeName, false, parse) == TargetsErrors(td, targets, typeName, false, other)
  {
    if targets != [] {
      TargetsErrorsWithoutImpl(td, targets[..|targets| - 1], typeName, parse, other);
    }
  }

  /** Without an implementation no snippet is compiled: the functions raise
      "Not Implemented", the interpolation field holds the identity, and
      neither the class nor the errors depend on the snippet compiler. */
  lemma WithoutImpl(anim: GradientAnimation, td: TypeDesc, parse: Parser, other: Parser)
    ensures Declarations(anim, td, false, parse) == Declarations(anim, td, false, other)
    ensures ClassErrors(anim, td, false, parse) == ClassErrors(anim, td, false, other)
    ensures forall i :: 4 <= i < 7 ==> Declarations(anim, td, false, parse)[i].body == NotImplemented()
    ensures Declarations(anim, td, false, parse)[3].value == Some(Identity())
  {
    TargetsErrorsWithoutImpl(td, anim.targets, anim.typeName, parse, other);
  }

  lemma {:induction false} ScaleBlocksAt(leaves: seq<Leaf>)
    ensures |ScaleBlocks(leaves)| == |leaves|
    ensures forall i :: 0 <= i < |leaves| ==> ScaleBlocks(leaves)[i] == ScaleBlock(leaves[i])
  {
    if leaves != [] {
      var init := leaves[..|leaves| - 1];
      ScaleBlocksAt(init);
      var r := ScaleBlocks(init) + [ScaleBlock(leaves[|leaves| - 1])];
      assert ScaleBlocks(leaves) == r;
      forall i | 0 <= i < |init|
        ensures r[i] == ScaleBlock(leaves[i])
      {
        assert leaves[i] == init[i];
      }
    }
  }

  /** `GetTimeScale` starts the scale at zero, has one sub-block per leaf in
      enumeration order, and returns the scale capped at one. */
  lemma TimeScaleShape(leaves: seq<Leaf>)
    ensures var b := TimeScaleBody(leaves).statements;
      |b| == |leaves| + 2 && b[0] == ScaleDecl() && b[|leaves| + 1] == ScaleReturn() &&
      forall i :: 0 <= i < |leaves| ==> b[i + 1] == ScaleBlock(leaves[i])
  {
    var blocks := ScaleBlocks(leaves);
    var b := [ScaleDecl()] + blocks + [ScaleReturn()];
    assert TimeScaleBody(leaves).statements == b;
    ScaleBlocksAt(leaves);
    forall i | 0 <= i < |leaves|
      ensures b[i + 1] == ScaleBlock(leaves[i])
    {
      assert b[i + 1] == blocks[i];
    }
  }

  lemma DistanceReads(first: string, second: string, variable: string, path: seq<string>)
    ensures Refs(Distance(first, second, variable, path).init) == {first, second}
  {
    var a, b := StrongCast(Access(path, Ref(first)), DoubleType), StrongCast(Access(path, Ref(second)), DoubleType);
    assert Refs(a) == {first} by { RefsOfAccess(path, first); }
    assert Refs(b) == {second} by { RefsOfAccess(path, second); }
    var diff := Binary(Sub, a, b);
    assert Refs(diff) == {first, second};
    assert RefsAll([diff]) == Refs(diff) by { assert [diff][1..] == []; }
    assert Refs(MathMember("Abs")) == {};
  }

  /** Each sub-block measures the leaf's distance from `begin` to `end` and
      from `current` to `end`, and folds their ratio into the scale. */
  lemma ScaleBlockReads(l: Leaf)
    ensures var b := ScaleBlock(l).statements;
      |b| == 3 &&
      b[0].VarDecl? && b[0].name == RefVar && Refs(b[0].init) == {BeginArg, EndArg} &&
      b[1].VarDecl? && b[1].name == CurVar && Refs(b[1].init) == {CurrentArg, EndArg} &&
      b[2].ExprStmt? && Refs(b[2].expr) == {ScaleVar, CurVar, RefVar}
  {
    DistanceReads(BeginArg, EndArg, RefVar, l.path);
    DistanceReads(CurrentArg, EndArg, CurVar, l.path);
    var quotient := Binary(Div, Ref(CurVar), Ref(RefVar));
    var args := [Ref(ScaleVar), quotient];
    assert RefsAll(args) == {ScaleVar, CurVar, RefVar} by {
      assert args[1..] == [quotient] && [quotient][1..] == [];
      assert RefsAll([quotient]) == Refs(quotient);
      assert Refs(quotient) == {CurVar, RefVar};
    }
    var max := Call(MathMember("Max"), args);
    assert Refs(max) == {ScaleVar, CurVar, RefVar} by {
      assert Refs(MathMember("Max")) == {};
    }
    assert Refs(Binary(Assign, Ref(ScaleVar), max)) == {ScaleVar, CurVar, RefVar};
  }

  lemma {:induction false} LerpsAt(leaves: seq<Leaf>)
    ensures |Lerps(leaves)| == |leaves|
    ensures forall i :: 0 <= i < |leaves| ==> Lerps(leaves)[i] == Lerp(leaves[i])
  {
    if leaves != [] {
      var init := leaves[..|leaves| - 1];
      LerpsAt(init);
      var r := Lerps(init) + [Lerp(leaves[|leaves| - 1])];
      assert Lerps(leaves) == r;
      forall i | 0 <= i < |init|
        ensures r[i] == Lerp(leaves[i])
      {
        assert leaves[i] == init[i];
      }
    }
  }

  /** `Interpolate` declares one local per leaf, in enumeration order, named
      after the leaf's member chain and holding a value of the leaf's type.
      As written it reads only `<animation>begin` and the ratio: neither
      `<animation>end` nor `<animation>current` is read. */
  lemma InterpolateShape(leaves: seq<Leaf>)
    ensures |Lerps(leaves)| == |leaves|
    ensures forall i :: 0 <= i < |leaves| ==>
      var s := Lerps(leaves)[i];
      s.VarDecl? && s.name == "<animation>" + Underscored(leaves[i].path) &&
      s.init.StrongCast? && s.init.castType == ValueOf(leaves[i].prop.returnType.name) &&
      Refs(s.init) == {BeginArg, RatioArg}
  {
    LerpsAt(leaves);
    forall i | 0 <= i < |leaves|
      ensures Refs(Lerp(leaves[i]).init) == {BeginArg, RatioArg}
    {
      LerpReads(leaves[i]);
    }
  }

  lemma LerpReads(l: Leaf)
    ensures Refs(Lerp(l).init) == {BeginArg, RatioArg}
  {
    var begin := BeginValue(l.path);
    assert Refs(begin) == {BeginArg} by { RefsOfAccess(l.path, BeginArg); }
    var part1 := Binary(Mul, begin, Ref(RatioArg));
    var part2 := Binary(Mul, begin, Binary(Sub, FloatLit("1.0"), Ref(RatioArg)));
    assert Refs(part1) == {BeginArg, RatioArg};
    assert Refs(Binary(Sub, FloatLit("1.0"), Ref(RatioArg))) == {RatioArg};
    assert Refs(part2) == {BeginArg, RatioArg};
    assert Lerp(l).init == StrongCast(Binary(Add, part1, part2), ValueOf(l.prop.returnType.name));
  }
}
