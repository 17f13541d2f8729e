/** The gradient-animation resource: its declarative model, the loader that
    reads it from an XML root element while collecting every structural
    error, and the writer that turns it back into an element. */
module AnimationLoader {
  import opened Basics
  import opened Xml
  import opened Diagnostics

  datatype Target = Target(name: string, namePos: Pos, interpolation: string, interpolationPos: Pos)

  datatype GradientAnimation = GradientAnimation(
    tagPos: Pos,
    className: string,
    classPos: Pos,
    typeName: string,
    typePos: Pos,
    interpolation: string,
    interpolationPos: Pos,
    targets: seq<Target>)

  // ---------------------------------------------------------------------------
  // What the loader reads

  /** The loader reads the first sub-node of an `Interpolation` element
      without checking that there is one. */
  predicate InterpolationReadable(nodes: seq<Node>)
  {
    GetElement(nodes, "Interpolation").Some? ==> |GetElement(nodes, "Interpolation").value.subNodes| > 0
  }

  /** The `Target` elements of the first `Targets` element, in document order. */
  function TargetElements(root: Node): (r: seq<Node>)
    requires root.Element?
    ensures forall i :: 0 <= i < |r| ==> r[i].Element? && r[i].name == "Target"
  {
    match GetElement(root.subNodes, "Targets")
    case None => []
    case Some(targets) => ElementsNamed(targets.subNodes, "Target")
  }

  /** What the loader needs of its input: a root element whose `Interpolation`
      elements (its own and each target's) are not empty. */
  predicate Loadable(root: Node)
  {
    root.Element? && InterpolationReadable(root.subNodes) &&
    forall i :: 0 <= i < |TargetElements(root)| ==> InterpolationReadable(TargetElements(root)[i].subNodes)
  }

  // ---------------------------------------------------------------------------
  // Specification of the loader

  datatype Snippet = Snippet(text: string, pos: Pos, errors: seq<Diag>)

  /** An optional `Interpolation` child whose first sub-node must be CDATA;
      the position steps over `<![CDATA[`. */
  function InterpolationOf(nodes: seq<Node>): (r: Snippet)
    requires InterpolationReadable(nodes)
    ensures |r.errors| <= 1
    ensures forall i :: 0 <= i < |r.errors| ==> r.errors[i].kind == InterpolationNotInCData
  {
    match GetElement(nodes, "Interpolation")
    case None => Snippet("", NoPos, [])
    case Some(e) =>
      if e.subNodes[0].CData? then Snippet(e.subNodes[0].content, Shift(e.subNodes[0].pos, 9), [])
      else Snippet("", NoPos, [Diag(e.pos, InterpolationNotInCData)])
  }

  function TargetOf(e: Node): Target
    requires e.Element? && InterpolationReadable(e.subNodes)
  {
    var nameAttr := GetAttribute(e.attributes, "Name");
    var snippet := InterpolationOf(e.subNodes);
    Target(
      if nameAttr.Some? then nameAttr.value.value else "",
      if nameAttr.Some? then Shift(nameAttr.value.valuePos, 1) else NoPos,
      snippet.text, snippet.pos)
  }

  function TargetErrors(e: Node): (r: seq<Diag>)
    requires e.Element? && InterpolationReadable(e.subNodes)
    ensures forall i :: 0 <= i < |r| ==> r[i].kind == MissingRequiredAttribute("Name") || r[i].kind == InterpolationNotInCData
  {
    (if GetAttribute(e.attributes, "Name").None? then [Diag(e.pos, MissingRequiredAttribute("Name"))] else [])
    + InterpolationOf(e.subNodes).errors
  }

  predicate TargetsReadable(elems: seq<Node>)
  {
    forall i :: 0 <= i < |elems| ==> elems[i].Element? && InterpolationReadable(elems[i].subNodes)
  }

  function TargetsOf(elems: seq<Node>): (r: seq<Target>)
    requires TargetsReadable(elems)
  {
    if elems == [] then [] else TargetsOf(elems[..|elems| - 1]) + [TargetOf(elems[|elems| - 1])]
  }

  function TargetsErrors(elems: seq<Node>): seq<Diag>
    requires TargetsReadable(elems)
  {
    if elems == [] then [] else TargetsErrors(elems[..|elems| - 1]) + TargetErrors(elems[|elems| - 1])
  }

  /** The model the loader returns. */
  function Loaded(root: Node): GradientAnimation
    requires Loadable(root)
  {
    var classAttr := GetAttribute(root.attributes, "ref.Class");
    var typeAttr := GetAttribute(root.attributes, "Type");
    var snippet := InterpolationOf(root.subNodes);
    GradientAnimation(
      root.pos,
      if classAttr.Some? then classAttr.value.value else "",
      if classAttr.Some? then Shift(classAttr.value.valuePos, 1) else NoPos,
      if typeAttr.Some? then typeAttr.value.value else "",
      if typeAttr.Some? then Shift(typeAttr.value.valuePos, 1) else NoPos,
      snippet.text, snippet.pos,
      TargetsOf(TargetElements(root)))
  }

  /** The error for a missing required attribute of the root, reported at the root. */
  function AttributeError(root: Node, name: string): seq<Diag>
    requires root.Element?
  {
    if GetAttribute(root.attributes, name).None? then [Diag(root.pos, MissingRequiredAttribute(name))] else []
  }

  /** Errors about the root's attributes and its own interpolation snippet. */
  function HeaderErrors(root: Node): seq<Diag>
    requires Loadable(root)
  {
    AttributeError(root, "ref.Class") + AttributeError(root, "Type") + InterpolationOf(root.subNodes).errors
  }

  /** Errors about `Targets` and the targets in it. */
  function TargetsPartErrors(root: Node): seq<Diag>
    requires Loadable(root)
  {
    match GetElement(root.subNodes, "Targets")
    case None => [Diag(root.pos, MissingTargets)]
    case Some(targets) =>
      TargetsErrors(TargetElements(root))
      + (if TargetElements(root) == [] then [Diag(targets.pos, MissingTargetInTargets)] else [])
  }

  /** The errors the loader appends, in the order it appends them. */
  function LoadErrors(root: Node): seq<Diag>
    requires Loadable(root)
  {
    HeaderErrors(root) + TargetsPartErrors(root)
  }

  // ---------------------------------------------------------------------------
  // The loader

  method ReadInterpolation(nodes: seq<Node>, errors: seq<Diag>) returns (text: string, pos: Pos, errs: seq<Diag>)
    requires InterpolationReadable(nodes)
    ensures text == InterpolationOf(nodes).text && pos == InterpolationOf(nodes).pos
    ensures errs == errors + InterpolationOf(nodes).errors
  {
    text, pos, errs := "", NoPos, errors;
    var element := GetElement(nodes, "Interpolation");
    if element.Some? {
      var first := element.value.subNodes[0];
      if first.CData? {
        text := first.content;
        pos := Shift(first.pos, 9);
      } else {
        errs := errs + [Diag(element.value.pos, InterpolationNotInCData)];
      }
    }
  }

  /** One `Target` element: its `Name` (an error at the element when missing)
      and its optional interpolation snippet. */
  method LoadTarget(te: Node, errors: seq<Diag>) returns (target: Target, errs: seq<Diag>)
    requires te.Element? && InterpolationReadable(te.subNodes)
    ensures target == TargetOf(te)
    ensures errs == errors + TargetErrors(te)
  {
    target, errs := Target("", NoPos, "", NoPos), errors;
    var nameAttr := GetAttribute(te.attributes, "Name");
    if nameAttr.Some? {
      target := target.(name := nameAttr.value.value, namePos := Shift(nameAttr.value.valuePos, 1));
    } else {
      errs := errs + [Diag(te.pos, MissingRequiredAttribute("Name"))];
    }
    var text, pos;
    text, pos, errs := ReadInterpolation(te.subNodes, errs);
    target := target.(interpolation := text, interpolationPos := pos);
  }

  lemma TargetsStep(elems: seq<Node>, i: nat)
    requires TargetsReadable(elems) && i < |elems|
    ensures TargetsOf(elems[..i + 1]) == TargetsOf(elems[..i]) + [TargetOf(elems[i])]
    ensures TargetsErrors(elems[..i + 1]) == TargetsErrors(elems[..i]) + TargetErrors(elems[i])
  {
    assert elems[..i + 1][..i] == elems[..i];
  }

  /** One target per `Target` element, in document order. */
  method LoadTargetList(elems: seq<Node>, errors: seq<Diag>) returns (targets: seq<Target>, errs: seq<Diag>)
    requires TargetsReadable(elems)
    ensures targets == TargetsOf(elems)
    ensures errs == errors + TargetsErrors(elems)
  {
    targets, errs := [], errors;
    var i := 0;
    while i < |elems|
      invariant 0 <= i <= |elems|
      invariant targets == TargetsOf(elems[..i])
      invariant errs == errors + TargetsErrors(elems[..i])
    {
      var target;
      target, errs := LoadTarget(elems[i], errs);
      targets := targets + [target];
      TargetsStep(elems, i);
      AppendAssoc(errors, TargetsErrors(elems[..i]), TargetErrors(elems[i]));
      i := i + 1;
    }
    assert elems[..i] == elems;
  }

  /** The `Targets` part of the loader: the targets, then the error for a
      `Targets` without any `Target`, or for a missing `Targets`. */
  method LoadTargets(root: Node, errors: seq<Diag>) returns (targets: seq<Target>, errs: seq<Diag>)
    requires Loadable(root)
    ensures targets == TargetsOf(TargetElements(root))
    ensures errs == errors + TargetsPartErrors(root)
  {
    targets, errs := [], errors;
    var targetsElement := GetElement(root.subNodes, "Targets");
    if targetsElement.Some? {
      var elems := ElementsNamed(targetsElement.value.subNodes, "Target");
      assert elems == TargetElements(root);
      targets, errs := LoadTargetList(elems, errors);
      if |targets| == 0 {
        TargetsOfLength(elems);
        errs := errs + [Diag(targetsElement.value.pos, MissingTargetInTargets)];
      }
      AppendAssoc(errors, TargetsErrors(elems), if elems == [] then [Diag(targetsElement.value.pos, MissingTargetInTargets)] else []);
    } else {
      errs := errs + [Diag(root.pos, MissingTargets)];
    }
  }

  /** A required attribute of the root: its value and the position just
      inside its opening quote, or an error at the root. */
  method ReadRequiredAttribute(root: Node, name: string, errors: seq<Diag>) returns (value: string, pos: Pos, errs: seq<Diag>)
    requires root.Element?
    ensures var a := GetAttribute(root.attributes, name);
      value == (if a.Some? then a.value.value else "") && pos == (if a.Some? then Shift(a.value.valuePos, 1) else NoPos)
    ensures errs == errors + AttributeError(root, name)
  {
    value, pos, errs := "", NoPos, errors;
    var attr := GetAttribute(root.attributes, name);
    if attr.Some? {
      value, pos := attr.value.value, Shift(attr.value.valuePos, 1);
    } else {
      errs := errs + [Diag(root.pos, MissingRequiredAttribute(name))];
    }
  }

  /** `GuiInstanceGradientAnimation::LoadFromXml`: always returns a model,
      only appends to the error list. */
  method LoadFromXml(root: Node, errors: seq<Diag>) returns (animation: GradientAnimation, errs: seq<Diag>)
    requires Loadable(root)
    ensures animation == Loaded(root)
    ensures errs == errors + LoadErrors(root)
  {
    var className, classPos, typeName, typePos, interpolation, interpolationPos, targets;
    className, classPos, errs := ReadRequiredAttribute(root, "ref.Class", errors);
    typeName, typePos, errs := ReadRequiredAttribute(root, "Type", errs);
    AppendAssoc(errors, AttributeError(root, "ref.Class"), AttributeError(root, "Type"));
    interpolation, interpolationPos, errs := ReadInterpolation(root.subNodes, errs);
    AppendAssoc(errors, AttributeError(root, "ref.Class") + AttributeError(root, "Type"), InterpolationOf(root.subNodes).errors);
    targets, errs := LoadTargets(root, errs);
    AppendAssoc(errors, HeaderErrors(root), TargetsPartErrors(root));
    animation := GradientAnimation(root.pos, className, classPos, typeName, typePos, interpolation, interpolationPos, targets);
  }

  // ---------------------------------------------------------------------------
  // Properties of the loader

  lemma {:induction false} TargetsOfLength(elems: seq<Node>)
    requires TargetsReadable(elems)
    ensures |TargetsOf(elems)| == |elems|
    ensures forall i :: 0 <= i < |elems| ==> TargetsOf(elems)[i] == TargetOf(elems[i])
  {
    if elems != [] {
      TargetsOfLength(elems[..|elems| - 1]);
    }
  }

  /** One target per `Target` element, in document order, with its `Name`
      (empty when the attribute is missing) and its interpolation snippet. */
  lemma TargetPerElement(root: Node)
    requires Loadable(root)
    ensures |Loaded(root).targets| == |TargetElements(root)|
    ensures forall i :: 0 <= i < |TargetElements(root)| ==>
      var e := TargetElements(root)[i];
      var a := GetAttribute(e.attributes, "Name");
      Loaded(root).targets[i].name == (if a.Some? then a.value.value else "") &&
      Loaded(root).targets[i].interpolation == InterpolationOf(e.subNodes).text
  {
    TargetsOfLength(TargetElements(root));
  }

  function MissingNames(elems: seq<Node>): nat
    requires forall i :: 0 <= i < |elems| ==> elems[i].Element?
  {
    if elems == [] then 0
    else MissingNames(elems[..|elems| - 1]) + if GetAttribute(elems[|elems| - 1].attributes, "Name").None? then 1 else 0
  }

  function BadInterpolations(elems: seq<Node>): nat
    requires TargetsReadable(elems)
  {
    if elems == [] then 0
    else BadInterpolations(elems[..|elems| - 1]) + |InterpolationOf(elems[|elems| - 1].subNodes).errors|
  }

  /** Every structural defect of the document costs exactly one error, and no other error is added. */
  function Defects(root: Node): nat
    requires Loadable(root)
  {
    (if GetAttribute(root.attributes, "ref.Class").None? then 1 else 0)
    + (if GetAttribute(root.attributes, "Type").None? then 1 else 0)
    + |InterpolationOf(root.subNodes).errors|
    + (if GetElement(root.subNodes, "Targets").None? || TargetElements(root) == [] then 1 else 0)
    + MissingNames(TargetElements(root))
    + BadInterpolations(TargetElements(root))
  }

  lemma {:induction false} TargetsErrorsLength(elems: seq<Node>)
    requires TargetsReadable(elems)
    ensures |TargetsErrors(elems)| == MissingNames(elems) + BadInterpolations(elems)
  {
    if elems != [] {
      TargetsErrorsLength(elems[..|elems| - 1]);
    }
  }

  /** Counted by any kind test that accepts `Name` errors and rejects CDATA errors. */
  lemma {:induction false} TargetsErrorsNames(elems: seq<Node>, p: DiagKind -> bool)
    requires TargetsReadable(elems)
    requires p(MissingRequiredAttribute("Name")) && !p(InterpolationNotInCData)
    ensures Count(TargetsErrors(elems), p) == MissingNames(elems)
  {
    if elems != [] {
      var last := elems[|elems| - 1];
      TargetsErrorsNames(elems[..|elems| - 1], p);
      TargetErrorsName(last, p);
      CountAppend(TargetsErrors(elems[..|elems| - 1]), TargetErrors(last), p);
    }
  }

  lemma TargetErrorsName(e: Node, p: DiagKind -> bool)
    requires e.Element? && InterpolationReadable(e.subNodes)
    requires p(MissingRequiredAttribute("Name")) && !p(InterpolationNotInCData)
    ensures Count(TargetErrors(e), p) == if GetAttribute(e.attributes, "Name").None? then 1 else 0
  {
    var nameErrs := if GetAttribute(e.attributes, "Name").None? then [Diag(e.pos, MissingRequiredAttribute("Name"))] else [];
    CountAppend(nameErrs, InterpolationOf(e.subNodes).errors, p);
    CountNone(InterpolationOf(e.subNodes).errors, p);
    if nameErrs != [] { CountSingle(nameErrs[0], p); }
  }

  lemma HeaderErrorsCount(root: Node, p: DiagKind -> bool)
    requires Loadable(root)
    ensures Count(HeaderErrors(root), p)
      == (if GetAttribute(root.attributes, "ref.Class").None? && p(MissingRequiredAttribute("ref.Class")) then 1 else 0)
       + (if GetAttribute(root.attributes, "Type").None? && p(MissingRequiredAttribute("Type")) then 1 else 0)
       + (if p(InterpolationNotInCData) then |InterpolationOf(root.subNodes).errors| else 0)
  {
    var a, b, c := AttributeError(root, "ref.Class"), AttributeError(root, "Type"), InterpolationOf(root.subNodes).errors;
    CountAppend(a + b, c, p);
    CountAppend(a, b, p);
    if a != [] { CountSingle(a[0], p); }
    if b != [] { CountSingle(b[0], p); }
    CountUniform(c, InterpolationNotInCData, p);
  }

  lemma TargetsPartErrorsCount(root: Node, p: DiagKind -> bool)
    requires Loadable(root)
    ensures Count(TargetsPartErrors(root), p)
      == match GetElement(root.subNodes, "Targets")
        case None => (if p(MissingTargets) then 1 else 0)
        case Some(_) => Count(TargetsErrors(TargetElements(root)), p)
                        + (if TargetElements(root) == [] && p(MissingTargetInTargets) then 1 else 0)
  {
    var elems := TargetElements(root);
    match GetElement(root.subNodes, "Targets")
    case None => CountSingle(Diag(root.pos, MissingTargets), p);
    case Some(targets) =>
      var last := if elems == [] then [Diag(targets.pos, MissingTargetInTargets)] else [];
      CountAppend(TargetsErrors(elems), last, p);
      if elems == [] { CountSingle(last[0], p); }
  }

  /** The target errors hold only `Name` and CDATA errors. */
  lemma {:induction false} TargetsErrorsKinds(elems: seq<Node>, p: DiagKind -> bool)
    requires TargetsReadable(elems)
    requires !p(MissingRequiredAttribute("Name")) && !p(InterpolationNotInCData)
    ensures Count(TargetsErrors(elems), p) == 0
  {
    if elems != [] {
      var last := elems[|elems| - 1];
      TargetsErrorsKinds(elems[..|elems| - 1], p);
      var own := TargetErrors(last);
      CountAppend(TargetsErrors(elems[..|elems| - 1]), own, p);
      CountNone(own, p);
    }
  }

  /** The loader never stops early and adds nothing twice: the number of
      errors equals the number of defects of the document. */
  lemma LoadErrorsLength(root: Node)
    requires Loadable(root)
    ensures |LoadErrors(root)| == Defects(root)
  {
    TargetsErrorsLength(TargetElements(root));
  }

  /** One `ref.Class` error exactly when that attribute is missing, one `Type`
      error likewise, one `Targets` error exactly when that element is missing,
      one empty-`Targets` error exactly when it holds no `Target`, and one
      `Name` error per target element without a name. */
  lemma LoadErrorsKinds(root: Node)
    requires Loadable(root)
    ensures Count(LoadErrors(root), IsKind(MissingRequiredAttribute("ref.Class")))
      == if GetAttribute(root.attributes, "ref.Class").None? then 1 else 0
    ensures Count(LoadErrors(root), IsKind(MissingRequiredAttribute("Type")))
      == if GetAttribute(root.attributes, "Type").None? then 1 else 0
    ensures Count(LoadErrors(root), IsKind(MissingTargets))
      == if GetElement(root.subNodes, "Targets").None? then 1 else 0
    ensures Count(LoadErrors(root), IsKind(MissingTargetInTargets))
      == if GetElement(root.subNodes, "Targets").Some? && TargetElements(root) == [] then 1 else 0
    ensures Count(LoadErrors(root), IsKind(MissingRequiredAttribute("Name"))) == MissingNames(TargetElements(root))
  {
    var classKind, typeKind, nameKind := MissingRequiredAttribute("ref.Class"), MissingRequiredAttribute("Type"), MissingRequiredAttribute("Name");
    assert classKind != typeKind && classKind != nameKind by { assert |"ref.Class"| != |"Type"| && |"ref.Class"| != |"Name"|; }
    assert typeKind != nameKind by { assert "Type"[0] != "Name"[0]; }
    LoadErrorsCountOther(root, IsKind(classKind));
    LoadErrorsCountOther(root, IsKind(typeKind));
    LoadErrorsCountOther(root, IsKind(MissingTargets));
    LoadErrorsCountOther(root, IsKind(MissingTargetInTargets));
    LoadErrorsNames(root, IsKind(nameKind));
  }

  lemma LoadErrorsCountOther(root: Node, p: DiagKind -> bool)
    requires Loadable(root)
    requires !p(MissingRequiredAttribute("Name")) && !p(InterpolationNotInCData)
    ensures Count(LoadErrors(root), p)
      == (if GetAttribute(root.attributes, "ref.Class").None? && p(MissingRequiredAttribute("ref.Class")) then 1 else 0)
       + (if GetAttribute(root.attributes, "Type").None? && p(MissingRequiredAttribute("Type")) then 1 else 0)
       + (if GetElement(root.subNodes, "Targets").None? && p(MissingTargets) then 1 else 0)
       + (if GetElement(root.subNodes, "Targets").Some? && TargetElements(root) == [] && p(MissingTargetInTargets) then 1 else 0)
  {
    TargetsPartCountOther(root, p);
    HeaderErrorsCount(root, p);
    CountAppend(HeaderErrors(root), TargetsPartErrors(root), p);
  }

  lemma TargetsPartCountOther(root: Node, p: DiagKind -> bool)
    requires Loadable(root)
    requires !p(MissingRequiredAttribute("Name")) && !p(InterpolationNotInCData)
    ensures Count(TargetsPartErrors(root), p)
      == (if GetElement(root.subNodes, "Targets").None? && p(MissingTargets) then 1 else 0)
       + (if GetElement(root.subNodes, "Targets").Some? && TargetElements(root) == [] && p(MissingTargetInTargets) then 1 else 0)
  {
    TargetsPartErrorsCount(root, p);
    TargetsErrorsKinds(TargetElements(root), p);
  }

  lemma LoadErrorsNames(root: Node, p: DiagKind -> bool)
    requires Loadable(root)
    requires p(MissingRequiredAttribute("Name"))
    requires !p(MissingRequiredAttribute("ref.Class")) && !p(MissingRequiredAttribute("Type"))
    requires !p(InterpolationNotInCData) && !p(MissingTargets) && !p(MissingTargetInTargets)
    ensures Count(LoadErrors(root), p) == MissingNames(TargetElements(root))
  {
    assert Count(HeaderErrors(root), p) == 0 by {
      HeaderErrorsCount(root, p);
    }
    assert Count(TargetsPartErrors(root), p) == MissingNames(TargetElements(root)) by {
      TargetsPartErrorsCount(root, p);
      TargetsErrorsNames(TargetElements(root), p);
    }
    CountAppend(HeaderErrors(root), TargetsPartErrors(root), p);
  }

  // ---------------------------------------------------------------------------
  // The writer, and the round trip

  function SaveTarget(t: Target): Node
  {
    Element("Target", NoPos, [Attribute("Name", t.name, NoPos, NoPos)],
      if t.interpolation != "" then [Element("Interpolation", NoPos, [], [CData(t.interpolation, NoPos)], NoPos)] else [],
      NoPos)
  }

  function SaveTargets(ts: seq<Target>): (r: seq<Node>)
    ensures |r| == |ts|
  {
    if ts == [] then [] else SaveTargets(ts[..|ts| - 1]) + [SaveTarget(ts[|ts| - 1])]
  }

  /** `GuiInstanceGradientAnimation::SaveToXml`: `ref.Class` and `Type`
      attributes, an `Interpolation` element only for a non-empty snippet, and
      a `Targets` element with one `Target` per target. The root element's name
      is left empty, as the writer does not set it. */
  function SaveToXml(m: GradientAnimation): (r: Node)
    ensures r.Element? && |r.attributes| == 2
  {
    Element("", NoPos,
      [Attribute("ref.Class", m.className, NoPos, NoPos), Attribute("Type", m.typeName, NoPos, NoPos)],
      (if m.interpolation != "" then [Element("Interpolation", NoPos, [], [CData(m.interpolation, NoPos)], NoPos)] else [])
      + [Element("Targets", NoPos, [], SaveTargets(m.targets), NoPos)],
      NoPos)
  }

  function WithoutPosition(t: Target): Target
  {
    Target(t.name, NoPos, t.interpolation, NoPos)
  }

  function TargetsWithoutPositions(ts: seq<Target>): seq<Target>
  {
    if ts == [] then [] else TargetsWithoutPositions(ts[..|ts| - 1]) + [WithoutPosition(ts[|ts| - 1])]
  }

  /** The model with every source position dropped. */
  function WithoutPositions(m: GradientAnimation): GradientAnimation
  {
    GradientAnimation(NoPos, m.className, NoPos, m.typeName, NoPos, m.interpolation, NoPos, TargetsWithoutPositions(m.targets))
  }

  lemma {:induction false} ElementsNamedAppend(a: seq<Node>, b: seq<Node>, name: string)
    ensures ElementsNamed(a + b, name) == ElementsNamed(a, name) + ElementsNamed(b, name)
  {
    if a == [] {
      assert a + b == b;
    } else {
      assert (a + b)[1..] == a[1..] + b;
      ElementsNamedAppend(a[1..], b, name);
    }
  }

  lemma {:induction false} SavedTargetElements(ts: seq<Target>)
    ensures ElementsNamed(SaveTargets(ts), "Target") == SaveTargets(ts)
    ensures TargetsReadable(SaveTargets(ts))
    ensures TargetsOf(SaveTargets(ts)) == TargetsWithoutPositions(ts)
    ensures TargetsErrors(SaveTargets(ts)) == []
  {
    if ts != [] {
      var init := ts[..|ts| - 1];
      var last := SaveTarget(ts[|ts| - 1]);
      SavedTargetElements(init);
      ElementsNamedAppend(SaveTargets(init), [last], "Target");
      assert ElementsNamed([last], "Target") == [last] by {
        assert [last][1..] == [];
      }
      var saved := SaveTargets(ts);
      assert saved[..|saved| - 1] == SaveTargets(init);
      assert GetAttribute(last.attributes, "Name") == Some(last.attributes[0]);
      if ts[|ts| - 1].interpolation != "" {
        assert GetElement(last.subNodes, "Interpolation") == Some(last.subNodes[0]);
      }
    }
  }

  /** What the loader's queries find in a written element. */
  lemma SavedRootQueries(m: GradientAnimation)
    ensures var root := SaveToXml(m);
      GetAttribute(root.attributes, "ref.Class") == Some(Attribute("ref.Class", m.className, NoPos, NoPos)) &&
      GetAttribute(root.attributes, "Type") == Some(Attribute("Type", m.typeName, NoPos, NoPos)) &&
      GetElement(root.subNodes, "Interpolation")
        == (if m.interpolation != "" then Some(Element("Interpolation", NoPos, [], [CData(m.interpolation, NoPos)], NoPos)) else None) &&
      GetElement(root.subNodes, "Targets") == Some(Element("Targets", NoPos, [], SaveTargets(m.targets), NoPos))
  {
    var root := SaveToXml(m);
    var targets := Element("Targets", NoPos, [], SaveTargets(m.targets), NoPos);
    assert root.attributes[1..] == [root.attributes[1]];
    if m.interpolation != "" {
      assert root.subNodes[1..] == [targets];
    } else {
      assert root.subNodes == [targets];
      assert root.subNodes[1..] == [];
    }
  }

  /** Writing a model and loading it back gives the same model, up to source
      positions; the only error is the one for an empty target list. */
  lemma SaveThenLoad(m: GradientAnimation)
    ensures Loadable(SaveToXml(m))
    ensures Loaded(SaveToXml(m)) == WithoutPositions(m)
    ensures LoadErrors(SaveToXml(m)) == if m.targets == [] then [Diag(NoPos, MissingTargetInTargets)] else []
  {
    var root := SaveToXml(m);
    SavedRootQueries(m);
    SavedTargetElements(m.targets);
    assert TargetElements(root) == SaveTargets(m.targets);
    assert m.targets == [] <==> SaveTargets(m.targets) == [];
    assert HeaderErrors(root) == [];
  }
}
