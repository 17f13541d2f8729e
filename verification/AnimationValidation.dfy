/** The type-shape validator of the gradient-animation compiler: a target's
    type must flatten to numeric leaves. It counts those leaves through struct
    properties and base types and reports every type that cannot be
    flattened, without stopping at the first one. */
module AnimationValidation {
  import opened Xml
  import opened Diagnostics
  import opened Reflection

  /** A leaf count together with the errors added while counting. */
  datatype Validated = Validated(count: nat, errors: seq<Diag>)

  /** The diagnostics of the validator: reported at `pos`, about a property
      path that extends `prefix`. */
  predicate ShapeDiag(d: Diag, pos: Pos, prefix: string)
  {
    d.pos == pos &&
    (d.kind.NotNumericOrStruct? || d.kind.StructWithoutNumericMember?) &&
    prefix <= d.kind.prefix
  }

  predicate ShapeDiags(ds: seq<Diag>, pos: Pos, prefix: string)
  {
    forall i :: 0 <= i < |ds| ==> ShapeDiag(ds[i], pos, prefix)
  }

  /** Specification of `ValidatePropertyType`. `typeName` is the animated
      type as the diagnostics name it. */
  function ValidateType(pos: Pos, t: TypeDesc, prefix: string, typeName: string, root: bool): Validated
    decreases t, 3, 0
  {
    match t.flags
    case Primitive(_) =>
      if IsSupportedPrimitiveType(t) then Validated(1, [])
      else Validated(0, [Diag(pos, NotNumericOrStruct(prefix, t.name, typeName))])
    case Struct =>
      var v := ValidateMembers(pos, t, prefix, typeName);
      if root && v.count == 0 then Validated(0, v.errors + [Diag(pos, StructWithoutNumericMember(prefix, t.name, typeName))])
      else v
    case _ => Validated(0, [Diag(pos, NotNumericOrStruct(prefix, t.name, typeName))])
  }

  /** Specification of `ValidateStructMembers`: declared properties first,
      then base types under the same prefix. */
  function ValidateMembers(pos: Pos, td: TypeDesc, prefix: string, typeName: string): Validated
    decreases td, 2, 0
  {
    var props := ValidateProps(pos, td, |td.properties|, prefix, typeName);
    var bases := ValidateBases(pos, td, |td.bases|, prefix, typeName);
    Validated(props.count + bases.count, props.errors + bases.errors)
  }

  /** The first `n` declared properties, each under `prefix + "." + name`. */
  function ValidateProps(pos: Pos, td: TypeDesc, n: nat, prefix: string, typeName: string): Validated
    requires n <= |td.properties|
    decreases td, 1, n
  {
    if n == 0 then Validated(0, [])
    else
      var acc := ValidateProps(pos, td, n - 1, prefix, typeName);
      var p := td.properties[n - 1];
      var v := ValidateType(pos, p.returnType, prefix + "." + p.name, typeName, false);
      Validated(acc.count + v.count, acc.errors + v.errors)
  }

  /** The first `n` base types, under the same prefix. */
  function ValidateBases(pos: Pos, td: TypeDesc, n: nat, prefix: string, typeName: string): Validated
    requires n <= |td.bases|
    decreases td, 1, n
  {
    if n == 0 then Validated(0, [])
    else
      var acc := ValidateBases(pos, td, n - 1, prefix, typeName);
      var v := ValidateMembers(pos, td.bases[n - 1], prefix, typeName);
      Validated(acc.count + v.count, acc.errors + v.errors)
  }

  // ---------------------------------------------------------------------------
  // The validator as the compiler runs it

  /** `ValidatePropertyType`: the number of numeric leaves of `t`. */
  method ValidatePropertyType(pos: Pos, t: TypeDesc, prefix: string, typeName: string, errors: seq<Diag>, root: bool)
    returns (count: nat, errs: seq<Diag>)
    ensures count == ValidateType(pos, t, prefix, typeName, root).count
    ensures errs == errors + ValidateType(pos, t, prefix, typeName, root).errors
    decreases t, 3, 0
  {
    errs := errors;
    match t.flags {
      case Primitive(_) =>
        if IsSupportedPrimitiveType(t) {
          return 1, errs;
        }
      case Struct =>
        var members;
        members, errs := ValidateStructMembers(pos, t, prefix, typeName, errs);
        if root && members == 0 {
          errs := errs + [Diag(pos, StructWithoutNumericMember(prefix, t.name, typeName))];
          AppendAssoc(errors, ValidateMembers(pos, t, prefix, typeName).errors, [Diag(pos, StructWithoutNumericMember(prefix, t.name, typeName))]);
        }
        return members, errs;
      case _ =>
    }
    errs := errs + [Diag(pos, NotNumericOrStruct(prefix, t.name, typeName))];
    return 0, errs;
  }

  /** `ValidateStructMembers`: sums the leaves of every declared property and
      of every base type. */
  method ValidateStructMembers(pos: Pos, td: TypeDesc, prefix: string, typeName: string, errors: seq<Diag>)
    returns (members: nat, errs: seq<Diag>)
    ensures members == ValidateMembers(pos, td, prefix, typeName).count
    ensures errs == errors + ValidateMembers(pos, td, prefix, typeName).errors
    decreases td, 2, 0
  {
    members, errs := 0, errors;
    var count := |td.properties|;
    var i := 0;
    while i < count
      invariant 0 <= i <= count
      invariant members == ValidateProps(pos, td, i, prefix, typeName).count
      invariant errs == errors + ValidateProps(pos, td, i, prefix, typeName).errors
    {
      var p := td.properties[i];
      var n;
      n, errs := ValidatePropertyType(pos, p.returnType, prefix + "." + p.name, typeName, errs, false);
      AppendAssoc(errors, ValidateProps(pos, td, i, prefix, typeName).errors,
                  ValidateType(pos, p.returnType, prefix + "." + p.name, typeName, false).errors);
      members := members + n;
      i := i + 1;
    }
    ghost var afterProps := errs;
    count := |td.bases|;
    i := 0;
    while i < count
      invariant 0 <= i <= count
      invariant members == ValidateProps(pos, td, |td.properties|, prefix, typeName).count
                           + ValidateBases(pos, td, i, prefix, typeName).count
      invariant errs == afterProps + ValidateBases(pos, td, i, prefix, typeName).errors
    {
      var n;
      n, errs := ValidateStructMembers(pos, td.bases[i], prefix, typeName, errs);
      AppendAssoc(afterProps, ValidateBases(pos, td, i, prefix, typeName).errors,
                  ValidateMembers(pos, td.bases[i], prefix, typeName).errors);
      members := members + n;
      i := i + 1;
    }
    AppendAssoc(errors, ValidateProps(pos, td, |td.properties|, prefix, typeName).errors,
                ValidateBases(pos, td, |td.bases|, prefix, typeName).errors);
  }

  // ---------------------------------------------------------------------------
  // Properties of the validator

  lemma ShapeDiagsAppend(a: seq<Diag>, b: seq<Diag>, pos: Pos, prefix: string)
    requires ShapeDiags(a, pos, prefix) && ShapeDiags(b, pos, prefix)
    ensures ShapeDiags(a + b, pos, prefix)
  {
  }

  /** Every diagnostic of the validator is one of its two shape errors,
      reported at the target's position, about a path under `prefix`. */
  lemma {:induction false} ValidateTypeShape(pos: Pos, t: TypeDesc, prefix: string, typeName: string, root: bool)
    ensures ShapeDiags(ValidateType(pos, t, prefix, typeName, root).errors, pos, prefix)
    decreases t, 3, 0
  {
    if t.flags.Struct? {
      var v := ValidateMembers(pos, t, prefix, typeName);
      ValidateMembersShape(pos, t, prefix, typeName);
      ShapeDiagsAppend(v.errors, [Diag(pos, StructWithoutNumericMember(prefix, t.name, typeName))], pos, prefix);
    }
  }

  lemma {:induction false} ValidateMembersShape(pos: Pos, td: TypeDesc, prefix: string, typeName: string)
    ensures ShapeDiags(ValidateMembers(pos, td, prefix, typeName).errors, pos, prefix)
    decreases td, 2, 0
  {
    ValidatePropsShape(pos, td, |td.properties|, prefix, typeName);
    ValidateBasesShape(pos, td, |td.bases|, prefix, typeName);
    ShapeDiagsAppend(ValidateProps(pos, td, |td.properties|, prefix, typeName).errors,
                     ValidateBases(pos, td, |td.bases|, prefix, typeName).errors, pos, prefix);
  }

  lemma {:induction false} ValidatePropsShape(pos: Pos, td: TypeDesc, n: nat, prefix: string, typeName: string)
    requires n <= |td.properties|
    ensures ShapeDiags(ValidateProps(pos, td, n, prefix, typeName).errors, pos, prefix)
    decreases td, 1, n
  {
    if n > 0 {
      var p := td.properties[n - 1];
      var v := ValidateType(pos, p.returnType, prefix + "." + p.name, typeName, false);
      ValidatePropsShape(pos, td, n - 1, prefix, typeName);
      ValidateTypeShape(pos, p.returnType, prefix + "." + p.name, typeName, false);
      forall i | 0 <= i < |v.errors| ensures prefix <= v.errors[i].kind.prefix {
        assert prefix <= prefix + "." + p.name;
      }
      ShapeDiagsAppend(ValidateProps(pos, td, n - 1, prefix, typeName).errors, v.errors, pos, prefix);
    }
  }

  lemma {:induction false} ValidateBasesShape(pos: Pos, td: TypeDesc, n: nat, prefix: string, typeName: string)
    requires n <= |td.bases|
    ensures ShapeDiags(ValidateBases(pos, td, n, prefix, typeName).errors, pos, prefix)
    decreases td, 1, n
  {
    if n > 0 {
      ValidateBasesShape(pos, td, n - 1, prefix, typeName);
      ValidateMembersShape(pos, td.bases[n - 1], prefix, typeName);
      ShapeDiagsAppend(ValidateBases(pos, td, n - 1, prefix, typeName).errors,
                       ValidateMembers(pos, td.bases[n - 1], prefix, typeName).errors, pos, prefix);
    }
  }

  /** A type that is not a struct counts 1 with no error exactly when it is
      one of the ten numeric types; any other such type counts 0 and adds
      exactly one "only numeric types and structs" error. */
  lemma NonStructShape(pos: Pos, t: TypeDesc, prefix: string, typeName: string, root: bool)
    requires !t.flags.Struct?
    ensures var r := ValidateType(pos, t, prefix, typeName, root);
      (r.count == 1 && r.errors == [] <==> IsSupportedPrimitiveType(t)) &&
      (!IsSupportedPrimitiveType(t) ==> r.count == 0 && r.errors == [Diag(pos, NotNumericOrStruct(prefix, t.name, typeName))])
  {
  }

  predicate IsEmptyStructKind(k: DiagKind)
  {
    k.StructWithoutNumericMember?
  }

  /** Validation below the root never reports a struct without numeric members. */
  lemma {:induction false} NoEmptyStructBelowRoot(pos: Pos, t: TypeDesc, prefix: string, typeName: string)
    ensures Count(ValidateType(pos, t, prefix, typeName, false).errors, IsEmptyStructKind) == 0
    decreases t, 3, 0
  {
    if t.flags.Struct? {
      NoEmptyStructInMembers(pos, t, prefix, typeName);
    } else {
      CountNone(ValidateType(pos, t, prefix, typeName, false).errors, IsEmptyStructKind);
    }
  }

  lemma {:induction false} NoEmptyStructInMembers(pos: Pos, td: TypeDesc, prefix: string, typeName: string)
    ensures Count(ValidateMembers(pos, td, prefix, typeName).errors, IsEmptyStructKind) == 0
    decreases td, 2, 0
  {
    NoEmptyStructInProps(pos, td, |td.properties|, prefix, typeName);
    NoEmptyStructInBases(pos, td, |td.bases|, prefix, typeName);
    CountAppend(ValidateProps(pos, td, |td.properties|, prefix, typeName).errors,
                ValidateBases(pos, td, |td.bases|, prefix, typeName).errors, IsEmptyStructKind);
  }

  lemma {:induction false} NoEmptyStructInProps(pos: Pos, td: TypeDesc, n: nat, prefix: string, typeName: string)
    requires n <= |td.properties|
    ensures Count(ValidateProps(pos, td, n, prefix, typeName).errors, IsEmptyStructKind) == 0
    decreases td, 1, n
  {
    if n > 0 {
      var p := td.properties[n - 1];
      NoEmptyStructInProps(pos, td, n - 1, prefix, typeName);
      NoEmptyStructBelowRoot(pos, p.returnType, prefix + "." + p.name, typeName);
      CountAppend(ValidateProps(pos, td, n - 1, prefix, typeName).errors,
                  ValidateType(pos, p.returnType, prefix + "." + p.name, typeName, false).errors, IsEmptyStructKind);
    }
  }

  lemma {:induction false} NoEmptyStructInBases(pos: Pos, td: TypeDesc, n: nat, prefix: string, typeName: string)
    requires n <= |td.bases|
    ensures Count(ValidateBases(pos, td, n, prefix, typeName).errors, IsEmptyStructKind) == 0
    decreases td, 1, n
  {
    if n > 0 {
      NoEmptyStructInBases(pos, td, n - 1, prefix, typeName);
      NoEmptyStructInMembers(pos, td.bases[n - 1], prefix, typeName);
      CountAppend(ValidateBases(pos, td, n - 1, prefix, typeName).errors,
                  ValidateMembers(pos, td.bases[n - 1], prefix, typeName).errors, IsEmptyStructKind);
    }
  }

  /** Validated as a root, a type gets exactly one "struct should at least
      have one numeric member" error when it is a struct that counts no
      leaf, and none otherwise. */
  lemma RootEmptyStruct(pos: Pos, t: TypeDesc, prefix: string, typeName: string)
    ensures var r := ValidateType(pos, t, prefix, typeName, true);
      Count(r.errors, IsEmptyStructKind) == if t.flags.Struct? && r.count == 0 then 1 else 0
  {
    var r := ValidateType(pos, t, prefix, typeName, true);
    if t.flags.Struct? {
      var v := ValidateMembers(pos, t, prefix, typeName);
      NoEmptyStructInMembers(pos, t, prefix, typeName);
      if v.count == 0 {
        CountAppend(v.errors, [Diag(pos, StructWithoutNumericMember(prefix, t.name, typeName))], IsEmptyStructKind);
        CountSingle(Diag(pos, StructWithoutNumericMember(prefix, t.name, typeName)), IsEmptyStructKind);
      }
    } else {
      CountNone(r.errors, IsEmptyStructKind);
    }
  }

  /** Below the root, validation differs from root validation only by that one error. */
  lemma RootOnlyAddsEmptyStructError(pos: Pos, t: TypeDesc, prefix: string, typeName: string)
    ensures var r := ValidateType(pos, t, prefix, typeName, true);
      var s := ValidateType(pos, t, prefix, typeName, false);
      r.count == s.count &&
      r.errors == s.errors + (if t.flags.Struct? && s.count == 0 then [Diag(pos, StructWithoutNumericMember(prefix, t.name, typeName))] else [])
  {
  }
}
