/** The part of the reflection system the animation compiler queries, as an
    inductive type graph: a type descriptor lists its declared properties and
    its base types; a property knows its declared type and whether it has a
    getter, a setter and a value-changed event. */
module Reflection {
  import opened Basics

  /** Identity of a primitive type descriptor (`GetTypeDescriptor<T>()`). */
  datatype PrimitiveKind =
    | Int8 | Int16 | Int32 | Int64
    | UInt8 | UInt16 | UInt32 | UInt64
    | Float | Double
    | Bool | Char | String | DateTime | Locale | OtherPrimitive

  /** `TypeDescriptorFlags`; `Other` stands for every flag the compilers do not single out. */
  datatype Flags = Primitive(kind: PrimitiveKind) | Struct | Class | Other

  /** `name` is the type's friendly name, as diagnostics print it. */
  datatype TypeDesc = TypeDesc(name: string, flags: Flags, properties: seq<PropInfo>, bases: seq<TypeDesc>)

  /** `ownerIsColor` answers `GetOwnerTypeDescriptor() == GetTypeDescriptor<Color>()`. */
  datatype PropInfo = PropInfo(
    name: string,
    returnType: TypeDesc,
    hasGetter: bool,
    hasSetter: bool,
    hasEvent: bool,
    ownerIsColor: bool)

  /** `IsSupportedPrimitiveType`: the signed and unsigned 8/16/32/64-bit integers, float and double. */
  predicate IsSupportedPrimitiveType(td: TypeDesc)
  {
    td.flags.Primitive? &&
    td.flags.kind in {Int8, Int16, Int32, Int64, UInt8, UInt16, UInt32, UInt64, Float, Double}
  }

  /** `GetPropertyByName(name, true)`: the type's own property of that name,
      otherwise the first base type (in order, depth first) that has one. */
  function FindProperty(td: TypeDesc, name: string): (r: Option<PropInfo>)
    ensures r.Some? ==> r.value.name == name
  {
    match FindOwn(td.properties, name)
    case Some(p) => Some(p)
    case None => FindInBases(td.bases, name)
  }

  /** The first declared property with that name. */
  function FindOwn(props: seq<PropInfo>, name: string): (r: Option<PropInfo>)
    ensures r.Some? ==> r.value.name == name
  {
    if props == [] then None
    else if props[0].name == name then Some(props[0])
    else FindOwn(props[1..], name)
  }

  /** The property found in the first base type that has one. */
  function FindInBases(bases: seq<TypeDesc>, name: string): (r: Option<PropInfo>)
    ensures r.Some? ==> r.value.name == name
  {
    if bases == [] then None
    else match FindProperty(bases[0], name)
      case Some(p) => Some(p)
      case None => FindInBases(bases[1..], name)
  }

  /** The own search finds the first declared property with the name, and
      finds nothing exactly when no declared property has it. */
  lemma {:induction false} FindOwnFirst(props: seq<PropInfo>, name: string)
    ensures FindOwn(props, name).None? <==> forall i :: 0 <= i < |props| ==> props[i].name != name
    ensures forall i :: (0 <= i < |props| && props[i].name == name &&
                         (forall j :: 0 <= j < i ==> props[j].name != name)) ==> FindOwn(props, name) == Some(props[i])
  {
    if props != [] {
      FindOwnFirst(props[1..], name);
      forall i | 0 <= i < |props| && props[i].name == name && (forall j :: 0 <= j < i ==> props[j].name != name)
        ensures FindOwn(props, name) == Some(props[i])
      {
        if i > 0 {
          assert props[1..][i - 1] == props[i];
          forall j | 0 <= j < i - 1 ensures props[1..][j].name != name {
            assert props[1..][j] == props[j + 1];
          }
        }
      }
      forall i | 0 <= i < |props[1..]| ensures props[1..][i] == props[i + 1] {}
    }
  }

  /** A declared property hides every inherited one of the same name. */
  lemma OwnPropertyFirst(td: TypeDesc, name: string, i: nat)
    requires i < |td.properties| && td.properties[i].name == name
    requires forall j :: 0 <= j < i ==> td.properties[j].name != name
    ensures FindProperty(td, name) == Some(td.properties[i])
  {
    FindOwnFirst(td.properties, name);
  }

  /** Without a declared property of that name, the search goes through the
      base types in order and takes the first one that has the property. */
  lemma {:induction false} InheritedPropertyFirst(bases: seq<TypeDesc>, name: string, k: nat)
    requires k < |bases| && FindProperty(bases[k], name).Some?
    requires forall j :: 0 <= j < k ==> FindProperty(bases[j], name).None?
    ensures FindInBases(bases, name) == FindProperty(bases[k], name)
  {
    if k > 0 {
      forall j | 0 <= j < k - 1 ensures FindProperty(bases[1..][j], name).None? {
        assert bases[1..][j] == bases[j + 1];
      }
      assert bases[1..][k - 1] == bases[k];
      InheritedPropertyFirst(bases[1..], name, k - 1);
    }
  }

  /** The inherited search finds nothing exactly when no base type has the property. */
  lemma {:induction false} NoInheritedProperty(bases: seq<TypeDesc>, name: string)
    ensures FindInBases(bases, name).None? <==> forall j :: 0 <= j < |bases| ==> FindProperty(bases[j], name).None?
  {
    if bases != [] {
      NoInheritedProperty(bases[1..], name);
      forall j | 0 <= j < |bases| - 1 ensures bases[1..][j] == bases[j + 1] {}
    }
  }
}
