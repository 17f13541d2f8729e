# GacUI resource compilers: gradient animations and localized strings

This project models, in Dafny, two resource compilers of the GacUI
precompiler and proves properties of the model.

**Gradient animations** (`GuiInstanceGradientAnimation`):

- **Loading.** The loader reads a `Gradient` resource from its XML root element. That means `ref.Class`, `Type`, an optional `Interpolation` CDATA snippet, and the `Targets`/`Target` list. It never stops early: every structural defect is one diagnostic.
- **Validation.** The type-shape validator counts the numeric leaves of a property type (`ValidatePropertyType` / `ValidateStructMembers`). It reports properties that are neither numeric nor struct, and root structs without a numeric member.
- **Enumeration.** The leaf enumerator (`EnumerateMembers`, `EnumerateProperties`) walks a target's struct members depth-first and composes member accessors. It skips `Color.value`.
- **Compiling.**
  - `Compile` resolves the animated type and checks every target: does it exist, is it a readable and writable property with a change event, and does it have a numeric shape.
  - It then emits a Workflow class. The class holds the `Begin`, `End` and `Current` state properties and a private interpolation field. It also holds `GetTimeScale` and two `Interpolate` overloads, with generated or "Not Implemented" bodies.
  - The emitted code is modelled as a syntax tree.

**Localized strings** (`GuiInstanceLocalizedStrings`):

- **Loading.** The loader reads groups of named strings, each group shared by the locales its `Locales` attribute lists. A locale listed again, in any group, is one "already exists" error and stays in that group's list. A name repeated within a group is one "already exists" error, and the first item with that name is kept. The default locale must be listed by some group.
- **Compiling.** `Compile` compares every group with the group of the default locale. It reports the names a group lacks and the names it has in excess, and returns a module exactly when it reported nothing.

The items of a group are kept in a dictionary with ascending keys, as the runtime's `Dictionary` keeps them.

The loops of the two loaders, of the validator and of the two compilers are Dafny `method`s with `while` loops. It takes the error list so far and returns the extended list. Its contract ties the result to a left-recursive specification function over the prefix already processed, and the properties are proved about those functions as lemmas. The other loops are recursive functions: the two loops of `EnumerateMembers` over a type (`PropsLeaves`, `BasesLeaves`), the loop of `EnumerateProperties` (`PropertiesLeaves`) and the target loop of the animation writer (`SaveTargets`). So are the remaining pure parts: the rest of the enumeration, the validation specification and the reflection lookup.

Modules, in dependency order:

- `Basics`: the optional value, and the separator fold the compilers use to join names.
- `Xml`: the element tree.
- `Diagnostics`: the diagnostic kinds and their message texts.
- `Reflection`: type descriptors and property lookup.
- `WorkflowAst`: the emitted syntax.
- `AnimationLoader`, `AnimationValidation`, `AnimationEnumeration`, `AnimationCompiler` and `AnimationExamples`.
- `StringDictionary`, `LocalizedStringsLoader`, `LocalizedStringsCompiler` and `LocalizedStringsExamples`.

## Model

| member | source | states |
|---|---|---|
| AnimationLoader.TargetElements | Source/Compiler/GuiInstanceAnimation.cpp:68-70 | every element enumerated is a `Target` element (the first `Targets` element's `Target` children) |
| AnimationLoader.InterpolationOf | Source/Compiler/GuiInstanceAnimation.cpp:51-66 | an `Interpolation` child adds at most one error, and only the "should be contained in a CDATA section" error |
| AnimationLoader.TargetErrors | Source/Compiler/GuiInstanceAnimation.cpp:74-103 | a target element adds only missing-`Name` and CDATA errors |
| AnimationLoader.ReadInterpolation | Source/Compiler/GuiInstanceAnimation.cpp:51-66 | the snippet text, its position (shifted past `<![CDATA[`) and the errors appended are those of the specification `InterpolationOf` |
| AnimationLoader.LoadTarget | Source/Compiler/GuiInstanceAnimation.cpp:72-105 | the target read from one element and the errors appended equal the specification `TargetOf`/`TargetErrors` |
| AnimationLoader.LoadTargetList | Source/Compiler/GuiInstanceAnimation.cpp:70-106 | the loop over the `Target` elements yields exactly the specified targets and appends exactly the specified errors, in document order |
| AnimationLoader.LoadTargets | Source/Compiler/GuiInstanceAnimation.cpp:68-122 | the `Targets` part: the targets read, and the errors including the missing `Targets` and empty `Targets` errors, as specified |
| AnimationLoader.ReadRequiredAttribute | Source/Compiler/GuiInstanceAnimation.cpp:23-49 | a present attribute gives its value and the position just past its opening quote, and appends nothing; a missing one gives the empty text and appends the one missing-attribute error of `AttributeError` |
| AnimationLoader.LoadFromXml | Source/Compiler/GuiInstanceAnimation.cpp:18-125 | always returns the model `Loaded(root)` and appends exactly `LoadErrors(root)` to the error list |
| AnimationLoader.TargetsOfLength | Source/Compiler/GuiInstanceAnimation.cpp:70-106 | one target per `Target` element, the i-th read from the i-th element |
| AnimationLoader.TargetPerElement | Source/Compiler/GuiInstanceAnimation.cpp:70-106 | the loaded model holds one target per `Target` element, in document order, each with that element's `Name` value (or the empty name) and its interpolation text |
| AnimationLoader.TargetsErrorsLength | Source/Compiler/GuiInstanceAnimation.cpp:74-103 | the target errors number exactly the missing names plus the non-CDATA interpolations |
| AnimationLoader.TargetsErrorsNames | Source/Compiler/GuiInstanceAnimation.cpp:80-86 | counted by kind, the target errors hold exactly one missing-`Name` error per target element without `Name` |
| AnimationLoader.TargetErrorsName | Source/Compiler/GuiInstanceAnimation.cpp:74-86 | one target element adds a missing-`Name` error exactly when it has no `Name` attribute |
| AnimationLoader.HeaderErrorsCount | Source/Compiler/GuiInstanceAnimation.cpp:23-66 | the root part adds one error per missing `ref.Class` and `Type`, plus the root snippet's CDATA error |
| AnimationLoader.TargetsPartErrorsCount | Source/Compiler/GuiInstanceAnimation.cpp:68-122 | a missing `Targets` element is one error; an empty one is one error after the target errors |
| AnimationLoader.TargetsErrorsKinds | Source/Compiler/GuiInstanceAnimation.cpp:74-103 | no error kind other than missing `Name` and CDATA comes from the targets |
| AnimationLoader.LoadErrorsLength | Source/Compiler/GuiInstanceAnimation.cpp:18-125 | the loader adds exactly one error per structural defect of the document and nothing else |
| AnimationLoader.LoadErrorsKinds | Source/Compiler/GuiInstanceAnimation.cpp:18-125 | one `ref.Class` and one `Type` error exactly when those attributes are missing; one `Targets` error exactly when the element is missing; one empty-`Targets` error exactly when it holds no `Target`; one `Name` error per nameless target |
| AnimationLoader.LoadErrorsCountOther | Source/Compiler/GuiInstanceAnimation.cpp:18-125 | any error kind other than missing `Name` and CDATA is counted from the root attributes and the `Targets` element alone, once per defect |
| AnimationLoader.LoadErrorsNames | Source/Compiler/GuiInstanceAnimation.cpp:80-86 | any kind test that accepts only missing-`Name` errors counts exactly the nameless targets |
| AnimationLoader.SaveTargets | Source/Compiler/GuiInstanceAnimation.cpp:157-178 | one `Target` element per target |
| AnimationLoader.SaveToXml | Source/Compiler/GuiInstanceAnimation.cpp:127-181 | the written root is an element with exactly two attributes (which two: `SavedRootQueries`) |
| AnimationLoader.SavedTargetElements | Source/Compiler/GuiInstanceAnimation.cpp:153-178 | the written `Target` elements load back to the same targets without positions and without errors |
| AnimationLoader.SavedRootQueries | Source/Compiler/GuiInstanceAnimation.cpp:127-181 | the loader's attribute and element queries find in a written root exactly the class, the type, the snippet (only when not empty) and the targets |
| AnimationLoader.SaveThenLoad | Source/Compiler/GuiInstanceAnimation.cpp:18-181 | writing a model and loading it back gives the same model up to positions; the only error is the empty-`Targets` error when the model has no target |
| AnimationValidation.ValidatePropertyType | Source/Compiler/GuiInstanceAnimation.cpp:217-240 | the leaf count returned and the errors appended equal the recursive specification `ValidateType` |
| AnimationValidation.ValidateStructMembers | Source/Compiler/GuiInstanceAnimation.cpp:198-215 | the two loops (declared properties under `prefix.name`, then base types under `prefix`) return and append exactly `ValidateMembers` |
| AnimationValidation.ValidateTypeShape | Source/Compiler/GuiInstanceAnimation.cpp:217-240 | every validator error is one of its two "not supported" errors, at the target's name position, about `prefix` or a dotted extension of it |
| AnimationValidation.ValidateMembersShape | Source/Compiler/GuiInstanceAnimation.cpp:198-215 | the same for the members of a struct |
| AnimationValidation.ValidatePropsShape | Source/Compiler/GuiInstanceAnimation.cpp:202-206 | the same for the declared properties |
| AnimationValidation.ValidateBasesShape | Source/Compiler/GuiInstanceAnimation.cpp:208-212 | the same for the base types |
| AnimationValidation.NonStructShape | Source/Compiler/GuiInstanceAnimation.cpp:183-240 | a non-struct type counts 1 with no error exactly when it is one of the ten supported numeric types; otherwise it counts 0 with exactly one "only numeric types and structs" error |
| AnimationValidation.NoEmptyStructBelowRoot | Source/Compiler/GuiInstanceAnimation.cpp:228-235 | below the root, no "struct should have a numeric member" error is ever reported |
| AnimationValidation.NoEmptyStructInMembers | Source/Compiler/GuiInstanceAnimation.cpp:198-215 | the same for the members of a struct |
| AnimationValidation.NoEmptyStructInProps | Source/Compiler/GuiInstanceAnimation.cpp:202-206 | the same for the declared properties |
| AnimationValidation.NoEmptyStructInBases | Source/Compiler/GuiInstanceAnimation.cpp:208-212 | the same for the base types |
| AnimationValidation.RootEmptyStruct | Source/Compiler/GuiInstanceAnimation.cpp:228-235 | validated as a root, a type gets exactly one empty-struct error when it is a struct with no leaf, and none otherwise |
| AnimationValidation.RootOnlyAddsEmptyStructError | Source/Compiler/GuiInstanceAnimation.cpp:228-235 | root and non-root validation count the same leaves; root validation only appends the empty-struct error |
| AnimationEnumeration.MemberLeaves | Source/Compiler/GuiInstanceAnimation.cpp:242-262 | a primitive property is exactly one callback with the accessor extended by its name; a property that is neither primitive nor struct gets no callback; every leaf lies under the accessor; below a struct no skipped `Color.value` leaf appears |
| AnimationEnumeration.TypeLeaves | Source/Compiler/GuiInstanceAnimation.cpp:264-282 | all leaves of a type lie under the accessor, and none is `Color.value` |
| AnimationEnumeration.PropsLeaves | Source/Compiler/GuiInstanceAnimation.cpp:266-275 | the same for the declared properties |
| AnimationEnumeration.BasesLeaves | Source/Compiler/GuiInstanceAnimation.cpp:277-281 | the same for the base types |
| AnimationEnumeration.MemberLeavesShift | Source/Compiler/GuiInstanceAnimation.cpp:245-251 | enumerating under an accessor equals enumerating under the identity and composing each leaf's accessor after it |
| AnimationEnumeration.TypeLeavesShift | Source/Compiler/GuiInstanceAnimation.cpp:264-282 | the same for a type |
| AnimationEnumeration.PropsLeavesShift | Source/Compiler/GuiInstanceAnimation.cpp:266-275 | the same for the declared properties |
| AnimationEnumeration.BasesLeavesShift | Source/Compiler/GuiInstanceAnimation.cpp:277-281 | the same for the base types |
| AnimationEnumeration.ComposedAccessor | Source/Compiler/GuiInstanceAnimation.cpp:245-251 | applying a leaf's accessor found under `path` is applying the identity-rooted accessor to the result of `path` |
| AnimationEnumeration.MemberLeafCount | Source/Compiler/GuiInstanceAnimation.cpp:242-262 | for a property whose type validates without error and holds no `Color.value`, the callbacks number exactly the leaves the validator counts |
| AnimationEnumeration.TypeLeafCount | Source/Compiler/GuiInstanceAnimation.cpp:264-282 | the same for a type |
| AnimationEnumeration.PropsLeafCount | Source/Compiler/GuiInstanceAnimation.cpp:266-275 | the same for the declared properties |
| AnimationEnumeration.BasesLeafCount | Source/Compiler/GuiInstanceAnimation.cpp:277-281 | the same for the base types |
| AnimationEnumeration.PropertiesLeaves | Source/Compiler/GuiInstanceAnimation.cpp:284-291 | every enumerated leaf lies under the empty path: each accessor starts from the animated object itself |
| AnimationEnumeration.MemberLeavesStart | Source/Compiler/GuiInstanceAnimation.cpp:245-251 | every leaf accessor under a property starts by reading that property |
| AnimationEnumeration.PropertiesLeavesStart | Source/Compiler/GuiInstanceAnimation.cpp:284-291 | every enumerated accessor starts by reading the property some target names |
| AnimationEnumeration.PropertiesLeafCount | Source/Compiler/GuiInstanceAnimation.cpp:284-291 | when every target validates cleanly, the callbacks number exactly the sum of the validator's leaf counts |
| Reflection.FindProperty | Source/Compiler/GuiInstanceAnimation.cpp:392 | a found property has the name looked up |
| Reflection.FindOwnFirst | Source/Compiler/GuiInstanceAnimation.cpp:392 | the own search finds nothing exactly when no declared property has the name, and otherwise finds the first one |
| Reflection.OwnPropertyFirst | Source/Compiler/GuiInstanceAnimation.cpp:392 | a declared property hides every inherited one of the same name |
| Reflection.InheritedPropertyFirst | Source/Compiler/GuiInstanceAnimation.cpp:392 | the search through the base types finds the property of the first base type that has one |
| Reflection.NoInheritedProperty | Source/Compiler/GuiInstanceAnimation.cpp:392 | the inherited search finds nothing exactly when no base type has the property |
| WorkflowAst.Access | Source/Compiler/GuiInstanceAnimation.cpp:245-251 | the empty accessor is the identity; otherwise the outermost expression reads the last member of the path |
| WorkflowAst.AccessCompose | Source/Compiler/GuiInstanceAnimation.cpp:245-251 | composing two accessors is accessing along the concatenated path |
| WorkflowAst.ChainOfAccess | Source/Compiler/GuiInstanceAnimation.cpp:676-685 | reading back the member chain of an accessed reference gives the path with `_` before each member |
| WorkflowAst.RefsOfAccess | Source/Compiler/GuiInstanceAnimation.cpp:245-251 | an accessor applied to a reference reads that reference and nothing else |
| AnimationCompiler.Reported | Source/Compiler/GuiInstanceAnimation.cpp:409-412 | one diagnostic per message of the snippet compiler, at the message's position |
| AnimationCompiler.CapabilityErrors | Source/Compiler/GuiInstanceAnimation.cpp:394-405 | at most one capability error, at the target's name, and none exactly when the property has a getter, a setter and a change event; it is the "variable" error exactly when the getter is missing, the "readonly" error exactly when only the setter is missing |
| AnimationCompiler.CheckTarget | Source/Compiler/GuiInstanceAnimation.cpp:392-420 | the errors one turn of the target loop appends equal the specification `TargetErrors` |
| AnimationCompiler.ChainName | Source/Compiler/GuiInstanceAnimation.cpp:676-685 | the loop that walks the member chain returns the specified chain name, which `WorkflowAst.ChainOfAccess` shows is the `_`-prefixed path |
| AnimationCompiler.BuildTimeScale | Source/Compiler/GuiInstanceAnimation.cpp:450-570 | the `GetTimeScale` body built with one sub-block per callback equals the specification `TimeScaleBody` |
| AnimationCompiler.BuildInterpolate | Source/Compiler/GuiInstanceAnimation.cpp:609-693 | the `Interpolate` body built with one local per callback equals the block of the specified locals |
| AnimationCompiler.CompileInterpolation | Source/Compiler/GuiInstanceAnimation.cpp:360-386 | the field's initializer is the identity `[$1]` unless a non-empty snippet is compiled with an implementation; only then are snippet errors appended |
| AnimationCompiler.CheckTargets | Source/Compiler/GuiInstanceAnimation.cpp:388-421 | the loop over the targets appends exactly the specified target errors, in target order |
| AnimationCompiler.EmitFunctions | Source/Compiler/GuiInstanceAnimation.cpp:423-750 | the three emitted functions equal the specification `Functions` |
| AnimationCompiler.EmitFields | Source/Compiler/GuiInstanceAnimation.cpp:327-386 | the three state properties and the interpolation field equal the specification `Fields`; only the snippet's errors are appended |
| AnimationCompiler.CompileClass | Source/Compiler/GuiInstanceAnimation.cpp:299-752 | for a class type, the module returned and the errors appended equal `ClassModule`/`ClassErrors` |
| AnimationCompiler.Compile | Source/Compiler/GuiInstanceAnimation.cpp:293-765 | returns exactly `Compiled` and appends exactly `CompileErrors` |
| AnimationCompiler.TargetOutcome | Source/Compiler/GuiInstanceAnimation.cpp:392-420 | an unresolved target is exactly one "does not exist" error at its name. A resolved target gets no such error, one capability error exactly when a capability is missing, and one empty-struct error exactly when its type is a struct without a numeric leaf |
| AnimationCompiler.ResolvedTargetCounts | Source/Compiler/GuiInstanceAnimation.cpp:394-412 | the same counts for the errors of a resolved target |
| AnimationCompiler.TargetErrorsKinds | Source/Compiler/GuiInstanceAnimation.cpp:392-420 | every error a target adds is of a target kind, never a type error |
| AnimationCompiler.TargetsErrorsKinds | Source/Compiler/GuiInstanceAnimation.cpp:390-421 | the same for all targets |
| AnimationCompiler.MissingPropertyCount | Source/Compiler/GuiInstanceAnimation.cpp:390-421 | exactly one missing-property error per unresolved target |
| AnimationCompiler.UnresolvedNone | Source/Compiler/GuiInstanceAnimation.cpp:390-421 | no target is unresolved exactly when every target names a property |
| AnimationCompiler.ClassErrorsCounts | Source/Compiler/GuiInstanceAnimation.cpp:360-421 | once the type is a class, no type error is added, and there is one missing-property error per unresolved target |
| AnimationCompiler.CompileOutcome | Source/Compiler/GuiInstanceAnimation.cpp:293-765 | an unknown type or a non-class type is exactly one error at `Type` and no module. A class gives a module named `moduleName` with one class named after `ref.Class` holding seven declarations. A module comes back exactly when no type error was added |
| AnimationCompiler.DeclarationShape | Source/Compiler/GuiInstanceAnimation.cpp:327-750 | the class holds, in order, `Begin`, `End` and `Current` (writable, observable, of the animated type), the private `<animation>interpolation` field, `GetTimeScale` with three arguments, and `Interpolate` with four and with one |
| AnimationCompiler.SignaturesWithoutImpl | Source/Compiler/GuiInstanceAnimation.cpp:360-750 | generating an implementation changes only bodies and the field's initializer, never a signature |
| AnimationCompiler.OverloadsDistinct | Source/Compiler/GuiInstanceAnimation.cpp:576-750 | two declarations with the same name are functions with different numbers of arguments |
| AnimationCompiler.TargetsErrorsWithoutImpl | Source/Compiler/GuiInstanceAnimation.cpp:409-412 | without an implementation, the target errors do not depend on the snippet compiler |
| AnimationCompiler.WithoutImpl | Source/Compiler/GuiInstanceAnimation.cpp:313-750 | without an implementation, no snippet is compiled: the functions raise "Not Implemented", the field holds the identity, and declarations and errors do not depend on the snippet compiler |
| AnimationCompiler.ScaleBlocksAt | Source/Compiler/GuiInstanceAnimation.cpp:466-549 | one sub-block per leaf, the i-th for the i-th leaf |
| AnimationCompiler.TimeScaleShape | Source/Compiler/GuiInstanceAnimation.cpp:450-570 | `GetTimeScale` starts by declaring the scale, has one sub-block per leaf in enumeration order, and ends by returning the scale |
| AnimationCompiler.DistanceReads | Source/Compiler/GuiInstanceAnimation.cpp:471-509 | a distance local reads exactly its two state arguments |
| AnimationCompiler.ScaleBlockReads | Source/Compiler/GuiInstanceAnimation.cpp:466-549 | each sub-block declares one distance reading only `Begin` and `End`, one reading only `Current` and `End`, then updates the scale from the scale and those two distances |
| AnimationCompiler.LerpsAt | Source/Compiler/GuiInstanceAnimation.cpp:616-692 | one local per leaf, the i-th for the i-th leaf |
| AnimationCompiler.InterpolateShape | Source/Compiler/GuiInstanceAnimation.cpp:616-692 | one local per leaf, named `<animation>` plus the leaf's path with `_` before each member, a cast to the leaf's type, reading only `<animation>begin` and `<animation>ratio` |
| AnimationCompiler.LerpReads | Source/Compiler/GuiInstanceAnimation.cpp:618-687 | a leaf's local reads only `<animation>begin` and `<animation>ratio` |
| AnimationExamples.PositionLeaves | Source/Compiler/GuiInstanceAnimation.cpp:284-291 | a `Position` target of a two-double struct enumerates `Position.x` and `Position.y` |
| AnimationExamples.PositionLocals | Source/Compiler/GuiInstanceAnimation.cpp:676-685 | those leaves give the locals `<animation>_Position_x` and `<animation>_Position_y`, cast back to `system::Double` |
| AnimationExamples.UnknownTarget | Source/Compiler/GuiInstanceAnimation.cpp:417-420 | a target naming no property is one error at its name, and the class is still emitted |
| AnimationExamples.UnknownType | Source/Compiler/GuiInstanceAnimation.cpp:759-762 | an unknown type is one error at `Type`, and no module |
| Basics.AggregateEmptyIff | Source/Compiler/GuiInstanceLocalizedStrings.cpp:201-213 | the separator fold gives the empty text exactly when every joined name is empty |
| Basics.AggregateIsJoin | Source/Compiler/GuiInstanceLocalizedStrings.cpp:194-213 | when no name is empty, the fold is the conventional join |
| StringDictionary.Add | Source/Compiler/GuiInstanceLocalizedStrings.cpp:108-119 | adding an absent key keeps the keys ascending, adds exactly that key, maps it to the value, and leaves every other key's value alone |
| StringDictionary.AscendingDistinct | Source/Compiler/GuiInstanceLocalizedStrings.cpp:108-119 | ascending keys hold no key twice |
| LocalizedStringsLoader.LocaleErrors | Source/Compiler/GuiInstanceLocalizedStrings.cpp:74-84 | every locale error is an "already exists" error at the position given (the `Locales` attribute); at most one per locale listed |
| LocalizedStringsLoader.Complete | Source/Compiler/GuiInstanceLocalizedStrings.cpp:94-118 | a `String` element describes an item exactly when it has both `Name` and `Text` |
| LocalizedStringsLoader.ItemStep | Source/Compiler/GuiInstanceLocalizedStrings.cpp:86-121 | one child element keeps the keys ascending and adds only item-kind errors |
| LocalizedStringsLoader.ItemsFrom | Source/Compiler/GuiInstanceLocalizedStrings.cpp:86-121 | the items of a group: keys ascending, only item-kind errors |
| LocalizedStringsLoader.CheckLocales | Source/Compiler/GuiInstanceLocalizedStrings.cpp:74-84 | the locale loop adds the group's locales to the existing set and appends exactly `LocaleErrors` |
| LocalizedStringsLoader.LoadItem | Source/Compiler/GuiInstanceLocalizedStrings.cpp:88-121 | one turn of the item loop updates the dictionary and appends errors exactly as `ItemStep` |
| LocalizedStringsLoader.LoadItems | Source/Compiler/GuiInstanceLocalizedStrings.cpp:86-121 | the item loop yields exactly `ItemsFrom` |
| LocalizedStringsLoader.LoadGroup | Source/Compiler/GuiInstanceLocalizedStrings.cpp:56-121 | one child of the root updates the existing locales, the groups and the errors exactly as `GroupStep` |
| LocalizedStringsLoader.LoadGroups | Source/Compiler/GuiInstanceLocalizedStrings.cpp:53-122 | the group loop yields exactly `GroupsFrom` |
| LocalizedStringsLoader.LoadFromXml | Source/Compiler/GuiInstanceLocalizedStrings.cpp:17-132 | returns exactly `Loaded` (null as `None`) and appends exactly `LoadErrors` |
| LocalizedStringsLoader.LoadOutcome | Source/Compiler/GuiInstanceLocalizedStrings.cpp:21-50 | no model exactly when the root is not `LocalizedStrings` (then exactly one error) or a root attribute is missing (then one error per missing attribute, at the root); a model carries the `DefaultLocale` value |
| LocalizedStringsLoader.SeenLocales | Source/Compiler/GuiInstanceLocalizedStrings.cpp:53-84 | the set of existing locales is exactly the union of the locales of the groups read |
| LocalizedStringsLoader.DefaultLocaleCheck | Source/Compiler/GuiInstanceLocalizedStrings.cpp:126-129 | for a complete header, the default locale is reported undefined exactly once when no loaded group lists it, and never otherwise |
| LocalizedStringsLoader.GroupsKinds | Source/Compiler/GuiInstanceLocalizedStrings.cpp:53-122 | reading the groups adds only group-level and item-level error kinds |
| LocalizedStringsLoader.LocaleErrorsCount | Source/Compiler/GuiInstanceLocalizedStrings.cpp:74-84 | every locale listed is either new (it grows the existing set) or exactly one error |
| LocalizedStringsLoader.GroupStepLocales | Source/Compiler/GuiInstanceLocalizedStrings.cpp:62-84 | the same balance across one child of the root |
| LocalizedStringsLoader.DuplicateLocales | Source/Compiler/GuiInstanceLocalizedStrings.cpp:53-84 | across the document, the "already exists" errors plus the distinct locales equal all locale listings |
| LocalizedStringsLoader.DuplicateLocalesSeen | Source/Compiler/GuiInstanceLocalizedStrings.cpp:53-84 | the same with the existing-locale set |
| LocalizedStringsLoader.GroupStepSkipped | Source/Compiler/GuiInstanceLocalizedStrings.cpp:56-70 | a `Strings` element with `Locales` becomes one group; any other child is exactly one error and no group |
| LocalizedStringsLoader.GroupPerElement | Source/Compiler/GuiInstanceLocalizedStrings.cpp:53-70 | one group per accepted child, and one skip error per other child |
| LocalizedStringsLoader.ItemsLookup | Source/Compiler/GuiInstanceLocalizedStrings.cpp:106-119 | a group maps each name to the item of the first complete `String` element with that name, and holds only such names |
| LocalizedStringsLoader.ItemStepCount | Source/Compiler/GuiInstanceLocalizedStrings.cpp:106-119 | a complete `String` element either adds a key or adds one "already exists" error |
| LocalizedStringsLoader.ItemsCount | Source/Compiler/GuiInstanceLocalizedStrings.cpp:106-119 | keys plus "already exists" errors equal the complete `String` elements |
| LocalizedStringsLoader.ItemStepMissing | Source/Compiler/GuiInstanceLocalizedStrings.cpp:97-104 | one child adds a missing-`Name` (or `Text`) error exactly when it is a `String` without that attribute |
| LocalizedStringsLoader.MissingErrorsCount | Source/Compiler/GuiInstanceLocalizedStrings.cpp:97-104 | the missing-attribute errors of one `String` element: one per missing attribute |
| LocalizedStringsLoader.MissingAttributes | Source/Compiler/GuiInstanceLocalizedStrings.cpp:94-104 | each `String` element lacking `Name` (or `Text`) is exactly one such error in the group |
| LocalizedStringsLoader.ItemStepUnknown | Source/Compiler/GuiInstanceLocalizedStrings.cpp:88-92 | one child adds an "unknown element" error exactly when it is not a `String` element |
| LocalizedStringsLoader.UnknownElements | Source/Compiler/GuiInstanceLocalizedStrings.cpp:86-92 | each child of a `Strings` element other than `String` is exactly one "unknown element" error in the group |
| LocalizedStringsCompiler.DefaultIndex | Source/Compiler/GuiInstanceLocalizedStrings.cpp:184-189 | the first group listing the default locale |
| LocalizedStringsCompiler.Except | Source/Compiler/GuiInstanceLocalizedStrings.cpp:201-209 | exactly the names of the first list missing from the second |
| LocalizedStringsCompiler.CompareGroups | Source/Compiler/GuiInstanceLocalizedStrings.cpp:191-224 | the loop compares every group except the default group and collects exactly `ErrorsUpTo` over all groups |
| LocalizedStringsCompiler.Compile | Source/Compiler/GuiInstanceLocalizedStrings.cpp:182-234 | appends exactly `CompileErrors`; returns the module named `moduleName` exactly when no error was appended |
| LocalizedStringsCompiler.DifferenceNonEmpty | Source/Compiler/GuiInstanceLocalizedStrings.cpp:201-215 | the joined difference is non-empty exactly when a non-empty name is missing |
| LocalizedStringsCompiler.DifferenceListed | Source/Compiler/GuiInstanceLocalizedStrings.cpp:201-213 | with no empty names, the difference text lists every missing name, in key order, separated by ", " |
| LocalizedStringsCompiler.GroupErrorsIff | Source/Compiler/GuiInstanceLocalizedStrings.cpp:194-223 | one "missing strings" error exactly when the default group has a non-empty name the group lacks; one "unnecessary strings" error exactly when the reverse holds; nothing else; all at the group's tag |
| LocalizedStringsCompiler.ErrorsUpToEmpty | Source/Compiler/GuiInstanceLocalizedStrings.cpp:191-224 | no error collected exactly when every compared group adds none |
| LocalizedStringsCompiler.CompileSucceeds | Source/Compiler/GuiInstanceLocalizedStrings.cpp:182-234 | compiling adds no error exactly when every other group has the same non-empty names as the default group |
| LocalizedStringsCompiler.ErrorsUpToFrom | Source/Compiler/GuiInstanceLocalizedStrings.cpp:191-224 | every collected error comes from comparing some group other than the default group |
| LocalizedStringsCompiler.ErrorsUpToBound | Source/Compiler/GuiInstanceLocalizedStrings.cpp:191-224 | at most two errors per compared group |
| LocalizedStringsCompiler.CompileErrorsFrom | Source/Compiler/GuiInstanceLocalizedStrings.cpp:191-224 | at most two errors per non-default group, each at the tag of a non-default group |
| LocalizedStringsCompiler.EmptyNameUnreported | Source/Compiler/GuiInstanceLocalizedStrings.cpp:201-217 | for any two groups, when the empty name is the only name the group lacks, no "missing strings" error is reported, because the check looks at the joined text |
| LocalizedStringsExamples.MissingGreeting | Source/Compiler/GuiInstanceLocalizedStrings.cpp:182-234 | a group lacking the default group's `Hello` is one "missing strings" error at its tag, naming its locale and `Hello` |
| LocalizedStringsExamples.GreetingItems | Source/Compiler/GuiInstanceLocalizedStrings.cpp:106-119 | a second `Hello` is one "already exists" error at its element, and the first text is kept |
| LocalizedStringsExamples.GreetingGroup | Source/Compiler/GuiInstanceLocalizedStrings.cpp:62-84 | one `Strings` element for `en-US` becomes one group |
| LocalizedStringsExamples.DuplicateGreeting | Source/Compiler/GuiInstanceLocalizedStrings.cpp:17-132 | the whole document loads with only the duplicate-name error and with the first `Hello` text |

## Left out

- **XML parser.** `XmlDocument` is given as an already parsed element tree, and the resource item is not modelled. Positions are rows and columns only.
- **Reflection.** The type system is an inductive description of the queried type descriptors: flags, properties, bases, getter/setter/event presence, and whether the owner is `Color`.
  - Primitive identity is a tag for the ten supported numeric types, plus one tag for all others.
  - `GetPropertyByName(name, true)` is not part of this model. It is taken as: own properties first, then base types depth-first, in order.
- **Snippet compiler.** `Workflow_ParseExpression` is a `Parser` parameter. Its messages become `External` diagnostics at the positions it reports.
- **Emitted types and defaults.** `CreateDefaultValue`, `GetTypeFromTypeInfo` and the type-info objects appear as symbolic type references. `Workflow_InstallClass` is not part of this model: the class name is kept whole instead of being split into namespaces.
- **Unused lists.** The `props` and `interpolations` lists that `Compile` fills but never reads, and the `varNames` list, are left out.
- **Numerics.** The runtime arithmetic of the emitted code is left out. Only its syntax tree is modelled.
- **Semicolon splitting.** `SplitBySemicolon` is not part of this model. It is a `Splitter` parameter.
- **Localized strings `SaveToXml`.** The writer is not modelled, and no round trip is claimed for it. It writes the locales under an attribute named `Strings` and omits `ref.Class`, so loading its output would not give the model back.
- **Collections.**
  - `existingLocales` (a sorted list) is modelled as a set.
  - The runtime `Dictionary` is modelled as an association list with strictly ascending keys.
  - `Except` keeps the first list's order without removing duplicates; keys are already distinct.
- **Group identity.** The identity comparison `lss != defaultStrings` is modelled as a comparison of group indices. Distinct groups are distinct objects, so the two agree.
- AnimationLoader.LoadFromXml: requires `Loadable` instead of modelling a crash. An `Interpolation` element without sub-nodes is read at `subNodes[0]`, which the source does not guard.
- AnimationCompiler.Compile: requires `Compilable` instead of modelling a crash. With an implementation, `EnumerateProperties` reads the null property of an unresolved target.
- LocalizedStringsCompiler.Compile: requires `Listed` instead of modelling an exception. `First()` throws when no group lists the default locale; the loader reports that case, but `Compile` does not guard against it.
- **Behaviour kept as written:**
  - The three capability checks are an else-if chain, so at most one capability error is reported per target.
  - Any primitive property, numeric or not, reaches the enumeration callback.
  - The four-argument `Interpolate` computes both terms from `<animation>begin`. Its locals never read `<animation>end` or `<animation>current` (`AnimationCompiler.InterpolateShape`).
  - The one-argument `Interpolate` forwards `Begin`, `End`, `Begin`.
  - A missing empty name is never reported: `LocalizedStringsCompiler.GroupErrorsIff` counts only non-empty missing names, and `LocalizedStringsCompiler.EmptyNameUnreported` states the case where the empty name is the only one missing.
- **Message texts.** Each diagnostic is kept as a kind with its parameters. `Diagnostics.Message` renders the text, but no property is stated about the texts.
