/** The leaf enumerator of the gradient-animation compiler
    (`EnumerateMembers`, `EnumerateProperties`). The callback-driven traversal
    is modelled by the sequence of callbacks it makes: one `Leaf` per call, in
    call order, holding the accessor (a path of member names) and the
    property passed to the callback. */
module AnimationEnumeration {
  import opened Basics
  import opened Xml
  import opened Diagnostics
  import opened Reflection
  import opened WorkflowAst
  import opened AnimationValidation
  import opened AnimationLoader

  datatype Leaf = Leaf(path: seq<string>, prop: PropInfo)

  /** The property the enumerator leaves out: `Color.value`. */
  predicate Skipped(p: PropInfo)
  {
    p.name == "value" && p.ownerIsColor
  }

  /** What every callback of an enumeration that starts at accessor `path` receives. */
  predicate LeafUnder(l: Leaf, path: seq<string>)
  {
    |l.path| > |path| && l.path[..|path|] == path &&
    l.path[|l.path| - 1] == l.prop.name &&
    l.prop.returnType.flags.Primitive?
  }

  predicate LeavesUnder(ls: seq<Leaf>, path: seq<string>)
  {
    forall i :: 0 <= i < |ls| ==> LeafUnder(ls[i], path)
  }

  predicate NoneSkipped(ls: seq<Leaf>)
  {
    forall i :: 0 <= i < |ls| ==> !Skipped(ls[i].prop)
  }

  /** `EnumerateMembers(callback, accessor, propInfo)`: the accessor is
      extended by one member access named after the property; a primitive
      property is one callback, a struct is entered with the extended
      accessor, anything else is passed over. */
  function MemberLeaves(p: PropInfo, path: seq<string>): (r: seq<Leaf>)
    ensures LeavesUnder(r, path)
    ensures p.returnType.flags.Primitive? ==> r == [Leaf(path + [p.name], p)]
    ensures !p.returnType.flags.Primitive? ==> NoneSkipped(r)
    ensures !p.returnType.flags.Primitive? && !p.returnType.flags.Struct? ==> r == []
    decreases p, 0, 0
  {
    match p.returnType.flags
    case Primitive(_) => [Leaf(path + [p.name], p)]
    case Struct => TypeLeaves(p.returnType, path + [p.name])
    case _ => []
  }

  /** `EnumerateMembers(callback, accessor, td)`: declared properties in
      order (except `Color.value`), then base types in order with the same accessor. */
  function TypeLeaves(td: TypeDesc, path: seq<string>): (r: seq<Leaf>)
    ensures LeavesUnder(r, path) && NoneSkipped(r)
    decreases td, 2, 0
  {
    PropsLeaves(td, |td.properties|, path) + BasesLeaves(td, |td.bases|, path)
  }

  function PropsLeaves(td: TypeDesc, n: nat, path: seq<string>): (r: seq<Leaf>)
    requires n <= |td.properties|
    ensures LeavesUnder(r, path) && NoneSkipped(r)
    decreases td, 1, n
  {
    if n == 0 then []
    else
      var p := td.properties[n - 1];
      PropsLeaves(td, n - 1, path) + if Skipped(p) then [] else MemberLeaves(p, path)
  }

  function BasesLeaves(td: TypeDesc, n: nat, path: seq<string>): (r: seq<Leaf>)
    requires n <= |td.bases|
    ensures LeavesUnder(r, path) && NoneSkipped(r)
    decreases td, 1, n
  {
    if n == 0 then [] else BasesLeaves(td, n - 1, path) + TypeLeaves(td.bases[n - 1], path)
  }

  // ---------------------------------------------------------------------------
  // Enumeration with a composed accessor

  /** Every leaf accessor composed after `path`. */
  function Prefixed(path: seq<string>, ls: seq<Leaf>): (r: seq<Leaf>)
    ensures |r| == |ls|
  {
    seq(|ls|, i requires 0 <= i < |ls| => Leaf(path + ls[i].path, ls[i].prop))
  }

  lemma PrefixedAppend(path: seq<string>, a: seq<Leaf>, b: seq<Leaf>)
    ensures Prefixed(path, a + b) == Prefixed(path, a) + Prefixed(path, b)
  {
    assert forall i :: 0 <= i < |a + b| ==> Prefixed(path, a + b)[i] == (Prefixed(path, a) + Prefixed(path, b))[i];
  }

  lemma PrefixedCompose(p: seq<string>, q: seq<string>, ls: seq<Leaf>)
    ensures Prefixed(p + q, ls) == Prefixed(p, Prefixed(q, ls))
  {
    forall i | 0 <= i < |ls| ensures (p + q) + ls[i].path == p + (q + ls[i].path) {}
  }

  /** Enumerating under accessor `path` is enumerating under the identity
      accessor and composing `path` in front of every leaf accessor. */
  lemma {:induction false} MemberLeavesShift(p: PropInfo, path: seq<string>)
    ensures MemberLeaves(p, path) == Prefixed(path, MemberLeaves(p, []))
    decreases p, 0, 0
  {
    match p.returnType.flags
    case Primitive(_) =>
      assert [] + [p.name] == [p.name];
    case Struct =>
      TypeLeavesShift(p.returnType, path + [p.name]);
      TypeLeavesShift(p.returnType, [] + [p.name]);
      PrefixedCompose(path, [p.name], TypeLeaves(p.returnType, []));
      assert [] + [p.name] == [p.name];
    case _ =>
  }

  lemma {:induction false} TypeLeavesShift(td: TypeDesc, path: seq<string>)
    ensures TypeLeaves(td, path) == Prefixed(path, TypeLeaves(td, []))
    decreases td, 2, 0
  {
    PropsLeavesShift(td, |td.properties|, path);
    BasesLeavesShift(td, |td.bases|, path);
    PrefixedAppend(path, PropsLeaves(td, |td.properties|, []), BasesLeaves(td, |td.bases|, []));
  }

  lemma {:induction false} PropsLeavesShift(td: TypeDesc, n: nat, path: seq<string>)
    requires n <= |td.properties|
    ensures PropsLeaves(td, n, path) == Prefixed(path, PropsLeaves(td, n, []))
    decreases td, 1, n
  {
    if n > 0 {
      var p := td.properties[n - 1];
      PropsLeavesShift(td, n - 1, path);
      MemberLeavesShift(p, path);
      PrefixedAppend(path, PropsLeaves(td, n - 1, []), if Skipped(p) then [] else MemberLeaves(p, []));
    }
  }

  lemma {:induction false} BasesLeavesShift(td: TypeDesc, n: nat, path: seq<string>)
    requires n <= |td.bases|
    ensures BasesLeaves(td, n, path) == Prefixed(path, BasesLeaves(td, n, []))
    decreases td, 1, n
  {
    if n > 0 {
      BasesLeavesShift(td, n - 1, path);
      TypeLeavesShift(td.bases[n - 1], path);
      PrefixedAppend(path, BasesLeaves(td, n - 1, []), TypeLeaves(td.bases[n - 1], []));
    }
  }

  /** The accessor of a leaf found under `path`, applied to an expression,
      is the leaf's own accessor applied to `path` applied to that expression. */
  lemma ComposedAccessor(p: PropInfo, path: seq<string>, i: nat, e: Expr)
    requires i < |MemberLeaves(p, [])|
    ensures |MemberLeaves(p, path)| == |MemberLeaves(p, [])|
    ensures Access(MemberLeaves(p, path)[i].path, e) == Access(MemberLeaves(p, [])[i].path, Access(path, e))
  {
    MemberLeavesShift(p, path);
    AccessCompose(path, MemberLeaves(p, [])[i].path, e);
  }

  // ---------------------------------------------------------------------------
  // Enumeration against validation

  /** No `Color.value` property anywhere the enumerator looks. */
  predicate TypeSkipsNothing(td: TypeDesc)
    decreases td, 2, 0
  {
    PropsSkipNothing(td, |td.properties|) && BasesSkipNothing(td, |td.bases|)
  }

  predicate PropsSkipNothing(td: TypeDesc, n: nat)
    requires n <= |td.properties|
    decreases td, 1, n
  {
    n == 0 ||
    (PropsSkipNothing(td, n - 1) && !Skipped(td.properties[n - 1]) &&
     (td.properties[n - 1].returnType.flags.Struct? ==> TypeSkipsNothing(td.properties[n - 1].returnType)))
  }

  predicate BasesSkipNothing(td: TypeDesc, n: nat)
    requires n <= |td.bases|
    decreases td, 1, n
  {
    n == 0 || (BasesSkipNothing(td, n - 1) && TypeSkipsNothing(td.bases[n - 1]))
  }

  /** When a property's type validates without error and has no `Color.value`,
      the enumerator calls back exactly as many times as the validator counts. */
  lemma {:induction false} MemberLeafCount(p: PropInfo, path: seq<string>, pos: Pos, prefix: string, typeName: string)
    requires ValidateType(pos, p.returnType, prefix, typeName, false).errors == []
    requires p.returnType.flags.Struct? ==> TypeSkipsNothing(p.returnType)
    ensures |MemberLeaves(p, path)| == ValidateType(pos, p.returnType, prefix, typeName, false).count
    decreases p, 0, 0
  {
    if p.returnType.flags.Struct? {
      TypeLeafCount(p.returnType, path + [p.name], pos, prefix, typeName);
    }
  }

  lemma {:induction false} TypeLeafCount(td: TypeDesc, path: seq<string>, pos: Pos, prefix: string, typeName: string)
    requires ValidateMembers(pos, td, prefix, typeName).errors == []
    requires TypeSkipsNothing(td)
    ensures |TypeLeaves(td, path)| == ValidateMembers(pos, td, prefix, typeName).count
    decreases td, 2, 0
  {
    PropsLeafCount(td, |td.properties|, path, pos, prefix, typeName);
    BasesLeafCount(td, |td.bases|, path, pos, prefix, typeName);
  }

  lemma {:induction false} PropsLeafCount(td: TypeDesc, n: nat, path: seq<string>, pos: Pos, prefix: string, typeName: string)
    requires n <= |td.properties|
    requires ValidateProps(pos, td, n, prefix, typeName).errors == []
    requires PropsSkipNothing(td, n)
    ensures |PropsLeaves(td, n, path)| == ValidateProps(pos, td, n, prefix, typeName).count
    decreases td, 1, n
  {
    if n > 0 {
      var p := td.properties[n - 1];
      PropsLeafCount(td, n - 1, path, pos, prefix, typeName);
      MemberLeafCount(p, path, pos, prefix + "." + p.name, typeName);
    }
  }

  lemma {:induction false} BasesLeafCount(td: TypeDesc, n: nat, path: seq<string>, pos: Pos, prefix: string, typeName: string)
    requires n <= |td.bases|
    requires ValidateBases(pos, td, n, prefix, typeName).errors == []
    requires BasesSkipNothing(td, n)
    ensures |BasesLeaves(td, n, path)| == ValidateBases(pos, td, n, prefix, typeName).count
    decreases td, 1, n
  {
    if n > 0 {
      BasesLeafCount(td, n - 1, path, pos, prefix, typeName);
      TypeLeafCount(td.bases[n - 1], path, pos, prefix, typeName);
    }
  }

  // ---------------------------------------------------------------------------
  // Enumerating the animated properties

  /** Every target names a property of `td`, declared or inherited. */
  predicate Resolves(td: TypeDesc, targets: seq<Target>)
  {
    forall i :: 0 <= i < |targets| ==> FindProperty(td, targets[i].name).Some?
  }

  /** `EnumerateProperties(callback, td)`: each target's property in target
      order, enumerated from the identity accessor. */
  function PropertiesLeaves(td: TypeDesc, targets: seq<Target>): (r: seq<Leaf>)
    requires Resolves(td, targets)
    ensures LeavesUnder(r, [])
  {
    if targets == [] then []
    else
      PropertiesLeaves(td, targets[..|targets| - 1]) +
      MemberLeaves(FindProperty(td, targets[|targets| - 1].name).value, [])
  }

  /** Every leaf found under a property starts with one member access named after that property. */
  lemma MemberLeavesStart(p: PropInfo, path: seq<string>)
    ensures forall i :: 0 <= i < |MemberLeaves(p, path)| ==>
      |MemberLeaves(p, path)[i].path| > |path| && MemberLeaves(p, path)[i].path[..|path| + 1] == path + [p.name]
  {
    var r := MemberLeaves(p, path);
    forall i | 0 <= i < |r|
      ensures |r[i].path| > |path| && r[i].path[..|path| + 1] == path + [p.name]
    {
      if p.returnType.flags.Struct? {
        assert LeafUnder(r[i], path + [p.name]);
      }
    }
  }

  /** Every enumerated accessor starts by reading the property some target names. */
  lemma {:induction false} PropertiesLeavesStart(td: TypeDesc, targets: seq<Target>)
    requires Resolves(td, targets)
    ensures forall i :: 0 <= i < |PropertiesLeaves(td, targets)| ==>
      exists j :: 0 <= j < |targets| && PropertiesLeaves(td, targets)[i].path[0] == targets[j].name
  {
    if targets != [] {
      var init := targets[..|targets| - 1];
      var last := |targets| - 1;
      var p := FindProperty(td, targets[last].name).value;
      PropertiesLeavesStart(td, init);
      MemberLeavesStart(p, []);
      var a: seq<Leaf> := PropertiesLeaves(td, init);
      var b: seq<Leaf> := MemberLeaves(p, []);
      var r: seq<Leaf> := a + b;
      forall i | 0 <= i < |r|
        ensures exists j :: 0 <= j < |targets| && r[i].path[0] == targets[j].name
      {
        if i < |a| {
          var j :| 0 <= j < |init| && a[i].path[0] == init[j].name;
          assert targets[j] == init[j];
        } else {
          assert b[i - |a|].path[..1] == [p.name];
          assert r[i].path[0] == targets[last].name;
        }
      }
      assert PropertiesLeaves(td, targets) == r;
    } else {
      assert PropertiesLeaves(td, targets) == [];
    }
  }

  /** The targets whose types validate without error and hold no `Color.value`. */
  predicate TargetsValidate(td: TypeDesc, targets: seq<Target>, typeName: string)
    requires Resolves(td, targets)
  {
    forall i :: 0 <= i < |targets| ==>
      var p := FindProperty(td, targets[i].name).value;
      ValidateType(targets[i].namePos, p.returnType, p.name, typeName, true).errors == [] &&
      (p.returnType.flags.Struct? ==> TypeSkipsNothing(p.returnType))
  }

  /** The leaf counts the validator reports for the targets, summed. */
  function TargetsLeafCount(td: TypeDesc, targets: seq<Target>, typeName: string): nat
    requires Resolves(td, targets)
  {
    if targets == [] then 0
    else
      var t := targets[|targets| - 1];
      var p := FindProperty(td, t.name).value;
      TargetsLeafCount(td, targets[..|targets| - 1], typeName) + ValidateType(t.namePos, p.returnType, p.name, typeName, true).count
  }

  /** When every target validates, the enumeration calls back once per
      numeric leaf the validator counted. */
  lemma {:induction false} PropertiesLeafCount(td: TypeDesc, targets: seq<Target>, typeName: string)
    requires Resolves(td, targets)
    requires TargetsValidate(td, targets, typeName)
    ensures |PropertiesLeaves(td, targets)| == TargetsLeafCount(td, targets, typeName)
  {
    if targets != [] {
      var init := targets[..|targets| - 1];
      var t := targets[|targets| - 1];
      var p := FindProperty(td, t.name).value;
      assert TargetsValidate(td, init, typeName) by {
        forall i | 0 <= i < |init| ensures init[i] == targets[i] {}
      }
      PropertiesLeafCount(td, init, typeName);
      RootOnlyAddsEmptyStructError(t.namePos, p.returnType, p.name, typeName);
      MemberLeafCount(p, [], t.namePos, p.name, typeName);
    }
  }
}
