/** The localized-strings resource: groups of named texts, each group shared
    by one or more locales, and the loader that reads them from an XML root
    element while collecting every structural error. */
module LocalizedStringsLoader {
  import opened Basics
  import opened Xml
  import opened Diagnostics
  import opened StringDictionary

  datatype StringItem = StringItem(name: string, text: string, textPos: Pos)

  /** One `Strings` element: where its tag name starts, its locales as
      written (duplicates kept) and its items by name. */
  datatype StringsGroup = StringsGroup(tagPos: Pos, locales: seq<string>, items: Dictionary<StringItem>)

  datatype LocalizedStrings = LocalizedStrings(tagPos: Pos, className: string, defaultLocale: string, strings: seq<StringsGroup>)

  /** `SplitBySemicolon`, which cuts the `Locales` attribute into locale
      names, is defined outside this model and is taken as a parameter. */
  type Splitter = string -> seq<string>

  predicate AllElements(nodes: seq<Node>)
  {
    forall i :: 0 <= i < |nodes| ==> nodes[i].Element?
  }

  function SetOf(xs: seq<string>): set<string>
  {
    set x | x in xs
  }

  // ---------------------------------------------------------------------------
  // Specification of the loader

  /** Checking the locales of one group against the locales `seen` so far:
      a locale already seen, in an earlier group or earlier in this one, is
      one error at the `Locales` attribute. */
  function LocaleErrors(seen: set<string>, locales: seq<string>, pos: Pos): (r: seq<Diag>)
    ensures forall i :: 0 <= i < |r| ==> r[i].pos == pos && r[i].kind.LocaleAlreadyExists?
    ensures |r| <= |locales|
  {
    if locales == [] then []
    else
      var init, l := locales[..|locales| - 1], locales[|locales| - 1];
      LocaleErrors(seen, init, pos) + (if l in seen || l in init then [Diag(pos, LocaleAlreadyExists(l))] else [])
  }

  /** The item a `String` element with both a `Name` and a `Text` describes;
      the text position steps over the opening quote. */
  function Complete(e: Node): (r: Option<StringItem>)
    requires e.Element?
    ensures r.Some? <==> e.name == "String" && GetAttribute(e.attributes, "Name").Some? && GetAttribute(e.attributes, "Text").Some?
  {
    var name, text := GetAttribute(e.attributes, "Name"), GetAttribute(e.attributes, "Text");
    if e.name == "String" && name.Some? && text.Some? then
      Some(StringItem(name.value.value, text.value.value, Shift(text.value.valuePos, 1)))
    else None
  }

  /** One error per missing attribute of a `String` element. */
  function MissingErrors(e: Node): seq<Diag>
    requires e.Element?
  {
    (if GetAttribute(e.attributes, "Name").None? then [Diag(e.pos, MissingAttributeIn("Name", "String"))] else []) +
    (if GetAttribute(e.attributes, "Text").None? then [Diag(e.pos, MissingAttributeIn("Text", "String"))] else [])
  }

  datatype Items = Items(dict: Dictionary<StringItem>, errors: seq<Diag>)

  /** The kinds of error reading the items of a group can produce. */
  predicate IsItemKind(k: DiagKind)
  {
    (k.UnknownElement? && k.expected == "String") || k == MissingAttributeIn("Name", "String") ||
    k == MissingAttributeIn("Text", "String") || k.StringAlreadyExists?
  }

  /** One child element of a `Strings` element: its effect on the items and
      the errors it adds. */
  function ItemStep(d: Dictionary<StringItem>, e: Node): (r: Items)
    requires Valid(d) && e.Element?
    ensures Valid(r.dict)
    ensures forall i :: 0 <= i < |r.errors| ==> IsItemKind(r.errors[i].kind)
  {
    if e.name != "String" then Items(d, [Diag(e.pos, UnknownElement(e.name, "String"))])
    else match Complete(e)
      case None => Items(d, MissingErrors(e))
      case Some(item) =>
        if Contains(d, item.name) then Items(d, [Diag(e.pos, StringAlreadyExists(item.name))])
        else Items(Add(d, item.name, item), [])
  }

  /** The items of a group read from its child elements in document order. */
  function ItemsFrom(elems: seq<Node>): (r: Items)
    requires AllElements(elems)
    ensures Valid(r.dict)
    ensures forall i :: 0 <= i < |r.errors| ==> IsItemKind(r.errors[i].kind)
  {
    if elems == [] then Items(Empty(), [])
    else
      var prev := ItemsFrom(elems[..|elems| - 1]);
      var step := ItemStep(prev.dict, elems[|elems| - 1]);
      Items(step.dict, prev.errors + step.errors)
  }

  /** The locales seen, the groups read and the errors so far. */
  datatype Groups = Groups(seen: set<string>, groups: seq<StringsGroup>, errors: seq<Diag>)

  /** One child element of the root: a `Strings` element with `Locales`
      becomes a group, whose locale errors come before its item errors;
      anything else is one error and is skipped. */
  function GroupStep(prev: Groups, e: Node, split: Splitter): Groups
    requires e.Element?
  {
    if e.name != "Strings" then
      prev.(errors := prev.errors + [Diag(e.pos, UnknownElement(e.name, "Strings"))])
    else match GetAttribute(e.attributes, "Locales")
      case None => prev.(errors := prev.errors + [Diag(e.pos, MissingAttributeIn("Locales", "Strings"))])
      case Some(att) =>
        var locales := split(att.value);
        var items := ItemsFrom(Elements(e.subNodes));
        Groups(prev.seen + SetOf(locales), prev.groups + [StringsGroup(e.namePos, locales, items.dict)],
          prev.errors + (LocaleErrors(prev.seen, locales, att.pos) + items.errors))
  }

  function GroupsFrom(elems: seq<Node>, split: Splitter): Groups
    requires AllElements(elems)
  {
    if elems == [] then Groups({}, [], [])
    else GroupStep(GroupsFrom(elems[..|elems| - 1], split), elems[|elems| - 1], split)
  }

  /** A missing required attribute of the root is one error at the root. */
  function AttributeError(root: Node, name: string): seq<Diag>
    requires root.Element?
  {
    if GetAttribute(root.attributes, name).None? then [Diag(root.pos, MissingAttributeIn(name, "LocalizedStrings"))] else []
  }

  function HeaderErrors(root: Node): seq<Diag>
    requires root.Element?
  {
    AttributeError(root, "ref.Class") + AttributeError(root, "DefaultLocale")
  }

  predicate HeaderComplete(root: Node)
    requires root.Element?
  {
    GetAttribute(root.attributes, "ref.Class").Some? && GetAttribute(root.attributes, "DefaultLocale").Some?
  }

  function DefaultLocale(root: Node): string
    requires root.Element? && HeaderComplete(root)
  {
    GetAttribute(root.attributes, "DefaultLocale").value.value
  }

  /** The errors `LoadFromXml` adds. */
  function LoadErrors(root: Node, split: Splitter): seq<Diag>
    requires root.Element?
  {
    if root.name != "LocalizedStrings" then [Diag(root.pos, RootNotLocalizedStrings)]
    else if !HeaderComplete(root) then HeaderErrors(root)
    else
      var g := GroupsFrom(Elements(root.subNodes), split);
      g.errors + (if DefaultLocale(root) in g.seen then [] else [Diag(root.pos, DefaultLocaleUndefined(DefaultLocale(root)))])
  }

  /** The model `LoadFromXml` returns, or `None` for its null. */
  function Loaded(root: Node, split: Splitter): Option<LocalizedStrings>
    requires root.Element?
  {
    if root.name != "LocalizedStrings" || !HeaderComplete(root) then None
    else
      Some(LocalizedStrings(root.namePos, GetAttribute(root.attributes, "ref.Class").value.value, DefaultLocale(root),
        GroupsFrom(Elements(root.subNodes), split).groups))
  }

  // ---------------------------------------------------------------------------
  // The loader

  lemma SetOfSnoc(xs: seq<string>, x: string)
    ensures SetOf(xs + [x]) == SetOf(xs) + {x}
  {
    assert forall y :: y in xs + [x] <==> y in xs || y == x;
  }

  lemma LocaleStep(seen: set<string>, locales: seq<string>, pos: Pos, i: nat)
    requires i < |locales|
    ensures LocaleErrors(seen, locales[..i + 1], pos) == LocaleErrors(seen, locales[..i], pos) +
      (if locales[i] in seen || locales[i] in locales[..i] then [Diag(pos, LocaleAlreadyExists(locales[i]))] else [])
    ensures SetOf(locales[..i + 1]) == SetOf(locales[..i]) + {locales[i]}
  {
    assert locales[..i + 1] == locales[..i] + [locales[i]];
    SetOfSnoc(locales[..i], locales[i]);
  }

  /** The inner loop over a group's locales, updating the set of existing locales. */
  method CheckLocales(existing: set<string>, locales: seq<string>, pos: Pos, errors: seq<Diag>)
    returns (existing': set<string>, errs: seq<Diag>)
    ensures existing' == existing + SetOf(locales)
    ensures errs == errors + LocaleErrors(existing, locales, pos)
  {
    existing', errs := existing, errors;
    var i := 0;
    while i < |locales|
      invariant 0 <= i <= |locales|
      invariant existing' == existing + SetOf(locales[..i])
      invariant errs == errors + LocaleErrors(existing, locales[..i], pos)
    {
      var locale := locales[i];
      LocaleStep(existing, locales, pos, i);
      assert locale in existing' <==> locale in existing || locale in locales[..i];
      if locale !in existing' {
        existing' := existing' + {locale};
      } else {
        AppendAssoc(errors, LocaleErrors(existing, locales[..i], pos), [Diag(pos, LocaleAlreadyExists(locale))]);
        errs := errs + [Diag(pos, LocaleAlreadyExists(locale))];
      }
      i := i + 1;
    }
    assert locales[..i] == locales;
  }

  /** One child element of a `Strings` element. */
  method LoadItem(items: Dictionary<StringItem>, e: Node, errors: seq<Diag>) returns (items': Dictionary<StringItem>, errs: seq<Diag>)
    requires Valid(items) && e.Element?
    ensures items' == ItemStep(items, e).dict
    ensures errs == errors + ItemStep(items, e).errors
  {
    items', errs := items, errors;
    if e.name != "String" {
      errs := errs + [Diag(e.pos, UnknownElement(e.name, "String"))];
      return;
    }
    var name, text := GetAttribute(e.attributes, "Name"), GetAttribute(e.attributes, "Text");
    if name.None? {
      errs := errs + [Diag(e.pos, MissingAttributeIn("Name", "String"))];
    }
    if text.None? {
      errs := errs + [Diag(e.pos, MissingAttributeIn("Text", "String"))];
    }
    if name.Some? && text.Some? {
      if Contains(items, name.value.value) {
        errs := errs + [Diag(e.pos, StringAlreadyExists(name.value.value))];
      } else {
        var item := StringItem(name.value.value, text.value.value, Shift(text.value.valuePos, 1));
        items' := Add(items, item.name, item);
      }
    }
  }

  lemma ItemsStep(elems: seq<Node>, i: nat)
    requires AllElements(elems) && i < |elems|
    ensures ItemsFrom(elems[..i + 1]) ==
      Items(ItemStep(ItemsFrom(elems[..i]).dict, elems[i]).dict, ItemsFrom(elems[..i]).errors + ItemStep(ItemsFrom(elems[..i]).dict, elems[i]).errors)
  {
    assert elems[..i + 1][..i] == elems[..i];
  }

  /** The loop over a group's child elements, filling its dictionary. */
  method LoadItems(elems: seq<Node>, errors: seq<Diag>) returns (items: Dictionary<StringItem>, errs: seq<Diag>)
    requires AllElements(elems)
    ensures items == ItemsFrom(elems).dict
    ensures errs == errors + ItemsFrom(elems).errors
  {
    items, errs := Empty(), errors;
    var i := 0;
    while i < |elems|
      invariant 0 <= i <= |elems|
      invariant items == ItemsFrom(elems[..i]).dict
      invariant errs == errors + ItemsFrom(elems[..i]).errors
    {
      ItemsStep(elems, i);
      AppendAssoc(errors, ItemsFrom(elems[..i]).errors, ItemStep(items, elems[i]).errors);
      items, errs := LoadItem(items, elems[i], errs);
      i := i + 1;
    }
    assert elems[..i] == elems;
  }

  /** One child element of the root. */
  method LoadGroup(existing: set<string>, groups: seq<StringsGroup>, e: Node, split: Splitter, errors: seq<Diag>)
    returns (existing': set<string>, groups': seq<StringsGroup>, errs: seq<Diag>)
    requires e.Element?
    ensures Groups(existing', groups', errs) == GroupStep(Groups(existing, groups, errors), e, split)
  {
    existing', groups', errs := existing, groups, errors;
    if e.name != "Strings" {
      errs := errs + [Diag(e.pos, UnknownElement(e.name, "Strings"))];
      return;
    }
    var attLocales := GetAttribute(e.attributes, "Locales");
    if attLocales.None? {
      errs := errs + [Diag(e.pos, MissingAttributeIn("Locales", "Strings"))];
    } else {
      var locales := split(attLocales.value.value);
      existing', errs := CheckLocales(existing, locales, attLocales.value.pos, errs);
      var items;
      items, errs := LoadItems(Elements(e.subNodes), errs);
      groups' := groups + [StringsGroup(e.namePos, locales, items)];
      AppendAssoc(errors, LocaleErrors(existing, locales, attLocales.value.pos), ItemsFrom(Elements(e.subNodes)).errors);
    }
  }

  lemma GroupsStep(elems: seq<Node>, split: Splitter, i: nat)
    requires AllElements(elems) && i < |elems|
    ensures GroupsFrom(elems[..i + 1], split) == GroupStep(GroupsFrom(elems[..i], split), elems[i], split)
  {
    assert elems[..i + 1][..i] == elems[..i];
  }

  /** The loop over the root's child elements. */
  method LoadGroups(elems: seq<Node>, split: Splitter, errors: seq<Diag>)
    returns (existing: set<string>, groups: seq<StringsGroup>, errs: seq<Diag>)
    requires AllElements(elems)
    ensures existing == GroupsFrom(elems, split).seen && groups == GroupsFrom(elems, split).groups
    ensures errs == errors + GroupsFrom(elems, split).errors
  {
    existing, groups, errs := {}, [], errors;
    var i := 0;
    while i < |elems|
      invariant 0 <= i <= |elems|
      invariant Groups(existing, groups, errs) == GroupsFrom(elems[..i], split).(errors := errors + GroupsFrom(elems[..i], split).errors)
    {
      GroupsStep(elems, split, i);
      ghost var before := GroupsFrom(elems[..i], split);
      existing, groups, errs := LoadGroup(existing, groups, elems[i], split, errs);
      GroupStepErrors(before, elems[i], split, errors);
      i := i + 1;
    }
    assert elems[..i] == elems;
  }

  /** Running a step on a longer error list only prefixes its errors. */
  lemma GroupStepErrors(prev: Groups, e: Node, split: Splitter, errors: seq<Diag>)
    requires e.Element?
    ensures GroupStep(prev.(errors := errors + prev.errors), e, split) ==
      GroupStep(prev, e, split).(errors := errors + GroupStep(prev, e, split).errors)
  {
    var added := GroupStep(prev.(errors := []), e, split).errors;
    assert GroupStep(prev, e, split).errors == prev.errors + added;
    AppendAssoc(errors, prev.errors, added);
  }

  /** `GuiInstanceLocalizedStrings::LoadFromXml`. */
  method LoadFromXml(root: Node, split: Splitter, errors: seq<Diag>) returns (ls: Option<LocalizedStrings>, errs: seq<Diag>)
    requires root.Element?
    ensures ls == Loaded(root, split)
    ensures errs == errors + LoadErrors(root, split)
  {
    if root.name != "LocalizedStrings" {
      return None, errors + [Diag(root.pos, RootNotLocalizedStrings)];
    }
    errs := errors;
    var attClassName := GetAttribute(root.attributes, "ref.Class");
    if attClassName.None? {
      errs := errs + [Diag(root.pos, MissingAttributeIn("ref.Class", "LocalizedStrings"))];
    }
    var attDefaultLocale := GetAttribute(root.attributes, "DefaultLocale");
    if attDefaultLocale.None? {
      errs := errs + [Diag(root.pos, MissingAttributeIn("DefaultLocale", "LocalizedStrings"))];
    }
    AppendAssoc(errors, AttributeError(root, "ref.Class"), AttributeError(root, "DefaultLocale"));
    if attClassName.None? || attDefaultLocale.None? {
      return None, errs;
    }
    var existing, groups;
    existing, groups, errs := LoadGroups(Elements(root.subNodes), split, errs);
    var defaultLocale := attDefaultLocale.value.value;
    if defaultLocale !in existing {
      errs := errs + [Diag(root.pos, DefaultLocaleUndefined(defaultLocale))];
    }
    ls := Some(LocalizedStrings(root.namePos, attClassName.value.value, defaultLocale, groups));
  }

  // ---------------------------------------------------------------------------
  // Properties of the loader

  /** The document decides whether a model comes back: a wrong root is one
      error; otherwise each missing root attribute is one error at the root. */
  lemma LoadOutcome(root: Node, split: Splitter)
    requires root.Element?
    ensures Loaded(root, split).None? <==> root.name != "LocalizedStrings" || !HeaderComplete(root)
    ensures root.name != "LocalizedStrings" ==> LoadErrors(root, split) == [Diag(root.pos, RootNotLocalizedStrings)]
    ensures root.name == "LocalizedStrings" && !HeaderComplete(root) ==>
      |LoadErrors(root, split)| == (if GetAttribute(root.attributes, "ref.Class").None? then 1 else 0)
        + (if GetAttribute(root.attributes, "DefaultLocale").None? then 1 else 0) &&
      forall i :: 0 <= i < |LoadErrors(root, split)| ==>
        LoadErrors(root, split)[i].pos == root.pos && LoadErrors(root, split)[i].kind.MissingAttributeIn?
    ensures Loaded(root, split).Some? ==> Loaded(root, split).value.defaultLocale == DefaultLocale(root)
  {
  }

  /** All locales of the groups read, duplicates merged. */
  function LocalesOf(groups: seq<StringsGroup>): set<string>
  {
    set i, l | 0 <= i < |groups| && l in groups[i].locales :: l
  }

  lemma LocalesOfSnoc(groups: seq<StringsGroup>, g: StringsGroup)
    ensures LocalesOf(groups + [g]) == LocalesOf(groups) + SetOf(g.locales)
  {
    var gs := groups + [g];
    forall l | l in LocalesOf(gs) ensures l in LocalesOf(groups) + SetOf(g.locales) {
      var i :| 0 <= i < |gs| && l in gs[i].locales;
      if i < |groups| { assert gs[i] == groups[i]; }
    }
    forall l | l in LocalesOf(groups) ensures l in LocalesOf(gs) {
      var i :| 0 <= i < |groups| && l in groups[i].locales;
      assert gs[i] == groups[i];
    }
    forall l | l in g.locales ensures l in LocalesOf(gs) {
      assert gs[|groups|] == g;
    }
  }

  /** The set of existing locales is exactly the locales of the groups read. */
  lemma {:induction false} SeenLocales(elems: seq<Node>, split: Splitter)
    requires AllElements(elems)
    ensures GroupsFrom(elems, split).seen == LocalesOf(GroupsFrom(elems, split).groups)
  {
    if elems != [] {
      var prev := GroupsFrom(elems[..|elems| - 1], split);
      SeenLocales(elems[..|elems| - 1], split);
      var r := GroupsFrom(elems, split);
      if r.groups != prev.groups {
        LocalesOfSnoc(prev.groups, r.groups[|r.groups| - 1]);
        assert r.groups == prev.groups + [r.groups[|r.groups| - 1]];
      }
    }
  }

  /** The default locale is reported undefined exactly when no group lists it. */
  lemma DefaultLocaleCheck(root: Node, split: Splitter)
    requires root.Element? && root.name == "LocalizedStrings" && HeaderComplete(root)
    ensures Loaded(root, split).Some?
    ensures Count(LoadErrors(root, split), IsUndefinedDefault) ==
      if exists i :: 0 <= i < |Loaded(root, split).value.strings| && DefaultLocale(root) in Loaded(root, split).value.strings[i].locales
      then 0 else 1
  {
    var elems := Elements(root.subNodes);
    var g := GroupsFrom(elems, split);
    SeenLocales(elems, split);
    GroupsKinds(elems, split);
    CountNone(g.errors, IsUndefinedDefault);
    var tail := if DefaultLocale(root) in g.seen then [] else [Diag(root.pos, DefaultLocaleUndefined(DefaultLocale(root)))];
    CountAppend(g.errors, tail, IsUndefinedDefault);
    CountSingle(Diag(root.pos, DefaultLocaleUndefined(DefaultLocale(root))), IsUndefinedDefault);
  }

  predicate IsUndefinedDefault(k: DiagKind)
  {
    k.DefaultLocaleUndefined?
  }

  /** The kinds of error reading the groups can produce. */
  predicate IsGroupsKind(k: DiagKind)
  {
    IsItemKind(k) || k.LocaleAlreadyExists? || IsSkippedGroup(k)
  }

  /** The errors for a child of the root that does not become a group. */
  predicate IsSkippedGroup(k: DiagKind)
  {
    (k.UnknownElement? && k.expected == "Strings") || k == MissingAttributeIn("Locales", "Strings")
  }

  lemma {:induction false} GroupsKinds(elems: seq<Node>, split: Splitter)
    requires AllElements(elems)
    ensures forall i :: 0 <= i < |GroupsFrom(elems, split).errors| ==> IsGroupsKind(GroupsFrom(elems, split).errors[i].kind)
  {
    if elems != [] {
      var prev := GroupsFrom(elems[..|elems| - 1], split);
      GroupsKinds(elems[..|elems| - 1], split);
      var r := GroupsFrom(elems, split);
      var e := elems[|elems| - 1];
      var added := r.errors[|prev.errors|..];
      assert r.errors == prev.errors + added;
      forall i | 0 <= i < |r.errors| ensures IsGroupsKind(r.errors[i].kind) {
        if i >= |prev.errors| {
          if e.name == "Strings" && GetAttribute(e.attributes, "Locales").Some? {
            var att := GetAttribute(e.attributes, "Locales").value;
            assert added == LocaleErrors(prev.seen, split(att.value), att.pos) + ItemsFrom(Elements(e.subNodes)).errors;
            assert r.errors[i] == added[i - |prev.errors|];
          }
        } else {
          assert r.errors[i] == prev.errors[i];
        }
      }
    }
  }

  // Each locale counted once per group listing it.
  function TotalLocales(groups: seq<StringsGroup>): nat
  {
    if groups == [] then 0 else TotalLocales(groups[..|groups| - 1]) + |groups[|groups| - 1].locales|
  }

  predicate IsDuplicateLocale(k: DiagKind)
  {
    k.LocaleAlreadyExists?
  }

  /** Within one group: every locale is either new or one error. */
  lemma {:induction false} LocaleErrorsCount(seen: set<string>, locales: seq<string>, pos: Pos)
    ensures |LocaleErrors(seen, locales, pos)| + |seen + SetOf(locales)| == |seen| + |locales|
  {
    if locales != [] {
      var n := |locales| - 1;
      var l := locales[n];
      LocaleErrorsCount(seen, locales[..n], pos);
      LocaleStep(seen, locales, pos, n);
      assert locales[..n + 1] == locales;
      var before := seen + SetOf(locales[..n]);
      assert seen + SetOf(locales) == before + {l};
      assert l in before <==> l in seen || l in locales[..n];
    }
  }

  lemma GroupStepLocales(prev: Groups, e: Node, split: Splitter)
    requires e.Element?
    ensures var r := GroupStep(prev, e, split);
      Count(r.errors, IsDuplicateLocale) + |r.seen| + TotalLocales(prev.groups) ==
      Count(prev.errors, IsDuplicateLocale) + |prev.seen| + TotalLocales(r.groups)
  {
    var r := GroupStep(prev, e, split);
    if e.name != "Strings" || GetAttribute(e.attributes, "Locales").None? {
      var d := r.errors[|prev.errors|];
      assert r.errors == prev.errors + [d];
      CountAppend(prev.errors, [d], IsDuplicateLocale);
      CountSingle(d, IsDuplicateLocale);
    } else {
      var att := GetAttribute(e.attributes, "Locales").value;
      var locales := split(att.value);
      var le, ie := LocaleErrors(prev.seen, locales, att.pos), ItemsFrom(Elements(e.subNodes)).errors;
      assert r.errors == prev.errors + (le + ie);
      CountAppend3(prev.errors, le, ie, IsDuplicateLocale);
      AppendAssoc(prev.errors, le, ie);
      CountAll(le, IsDuplicateLocale);
      CountNone(ie, IsDuplicateLocale);
      LocaleErrorsCount(prev.seen, locales, att.pos);
      assert r.groups[..|r.groups| - 1] == prev.groups;
    }
  }

  /** Locales are unique across the document: every listing of a locale
      after its first, in any group, is one "already exists" error. */
  lemma {:induction false} DuplicateLocales(elems: seq<Node>, split: Splitter)
    requires AllElements(elems)
    ensures var g := GroupsFrom(elems, split);
      Count(g.errors, IsDuplicateLocale) + |LocalesOf(g.groups)| == TotalLocales(g.groups)
  {
    SeenLocales(elems, split);
    DuplicateLocalesSeen(elems, split);
  }

  lemma {:induction false} DuplicateLocalesSeen(elems: seq<Node>, split: Splitter)
    requires AllElements(elems)
    ensures var g := GroupsFrom(elems, split);
      Count(g.errors, IsDuplicateLocale) + |g.seen| == TotalLocales(g.groups)
  {
    if elems != [] {
      DuplicateLocalesSeen(elems[..|elems| - 1], split);
      GroupStepLocales(GroupsFrom(elems[..|elems| - 1], split), elems[|elems| - 1], split);
    }
  }

  /** The children of the root that become groups. */
  function Accepted(elems: seq<Node>): nat
    requires AllElements(elems)
  {
    if elems == [] then 0
    else
      var e := elems[|elems| - 1];
      Accepted(elems[..|elems| - 1]) + (if e.name == "Strings" && GetAttribute(e.attributes, "Locales").Some? then 1 else 0)
  }

  lemma GroupStepSkipped(prev: Groups, e: Node, split: Splitter)
    requires e.Element?
    ensures var r := GroupStep(prev, e, split);
      if e.name == "Strings" && GetAttribute(e.attributes, "Locales").Some?
      then |r.groups| == |prev.groups| + 1 && Count(r.errors, IsSkippedGroup) == Count(prev.errors, IsSkippedGroup)
      else r.groups == prev.groups && Count(r.errors, IsSkippedGroup) == Count(prev.errors, IsSkippedGroup) + 1
  {
    var r := GroupStep(prev, e, split);
    if e.name != "Strings" || GetAttribute(e.attributes, "Locales").None? {
      var d := r.errors[|prev.errors|];
      assert r.errors == prev.errors + [d];
      CountAppend(prev.errors, [d], IsSkippedGroup);
      CountSingle(d, IsSkippedGroup);
    } else {
      var att := GetAttribute(e.attributes, "Locales").value;
      var le, ie := LocaleErrors(prev.seen, split(att.value), att.pos), ItemsFrom(Elements(e.subNodes)).errors;
      assert r.errors == prev.errors + (le + ie);
      CountAppend3(prev.errors, le, ie, IsSkippedGroup);
      AppendAssoc(prev.errors, le, ie);
      CountNone(le, IsSkippedGroup);
      ItemErrorsNotSkipped(ie);
    }
  }

  lemma ItemErrorsNotSkipped(ds: seq<Diag>)
    requires forall i :: 0 <= i < |ds| ==> IsItemKind(ds[i].kind)
    ensures Count(ds, IsSkippedGroup) == 0
  {
    assert "String" != "Strings" by { assert |"String"| != |"Strings"|; }
    CountNone(ds, IsSkippedGroup);
  }

  /** A child of the root is either a group or one error: a group for each
      `Strings` element with `Locales`, in document order. */
  lemma {:induction false} GroupPerElement(elems: seq<Node>, split: Splitter)
    requires AllElements(elems)
    ensures |GroupsFrom(elems, split).groups| == Accepted(elems)
    ensures Count(GroupsFrom(elems, split).errors, IsSkippedGroup) == |elems| - Accepted(elems)
  {
    if elems != [] {
      GroupPerElement(elems[..|elems| - 1], split);
      GroupStepSkipped(GroupsFrom(elems[..|elems| - 1], split), elems[|elems| - 1], split);
    }
  }

  /** The first complete `String` element named `k`, in document order. */
  function FirstItem(elems: seq<Node>, k: string): Option<StringItem>
    requires AllElements(elems)
  {
    if elems == [] then None
    else if Complete(elems[0]).Some? && Complete(elems[0]).value.name == k then Complete(elems[0])
    else FirstItem(elems[1..], k)
  }

  lemma {:induction false} FirstItemSnoc(elems: seq<Node>, k: string)
    requires AllElements(elems) && elems != []
    ensures var init, last := elems[..|elems| - 1], elems[|elems| - 1];
      FirstItem(elems, k) ==
        if FirstItem(init, k).Some? then FirstItem(init, k)
        else if Complete(last).Some? && Complete(last).value.name == k then Complete(last)
        else None
  {
    if |elems| > 1 {
      var init := elems[..|elems| - 1];
      assert elems[1..][..|elems| - 2] == init[1..];
      FirstItemSnoc(elems[1..], k);
    }
  }

  /** A group keeps, for each name, the item of the first complete `String`
      element with that name; later ones are reported and dropped. */
  lemma {:induction false} ItemsLookup(elems: seq<Node>, k: string)
    requires AllElements(elems)
    ensures Lookup(ItemsFrom(elems).dict, k) == FirstItem(elems, k)
    ensures Contains(ItemsFrom(elems).dict, k) <==> FirstItem(elems, k).Some?
  {
    if elems != [] {
      var init, e := elems[..|elems| - 1], elems[|elems| - 1];
      ItemsLookup(init, k);
      FirstItemSnoc(elems, k);
      var d := ItemsFrom(init).dict;
      assert ItemsFrom(elems).dict == ItemStep(d, e).dict;
    }
  }

  /** The complete `String` elements. */
  function Completes(elems: seq<Node>): nat
    requires AllElements(elems)
  {
    if elems == [] then 0
    else Completes(elems[..|elems| - 1]) + (if Complete(elems[|elems| - 1]).Some? then 1 else 0)
  }

  predicate IsDuplicateString(k: DiagKind)
  {
    k.StringAlreadyExists?
  }

  lemma ItemStepCount(d: Dictionary<StringItem>, e: Node)
    requires Valid(d) && e.Element?
    ensures |Keys(ItemStep(d, e).dict)| + Count(ItemStep(d, e).errors, IsDuplicateString) ==
      |Keys(d)| + (if Complete(e).Some? then 1 else 0)
  {
    var r := ItemStep(d, e);
    if Complete(e).None? {
      CountNone(r.errors, IsDuplicateString);
    } else if r.errors != [] {
      CountSingle(r.errors[0], IsDuplicateString);
    }
  }

  /** Names are unique within a group: each complete `String` element is
      either a new item or one "already exists" error. */
  lemma {:induction false} ItemsCount(elems: seq<Node>)
    requires AllElements(elems)
    ensures |Keys(ItemsFrom(elems).dict)| + Count(ItemsFrom(elems).errors, IsDuplicateString) == Completes(elems)
  {
    if elems != [] {
      var init, e := elems[..|elems| - 1], elems[|elems| - 1];
      ItemsCount(init);
      var prev := ItemsFrom(init);
      ItemStepCount(prev.dict, e);
      CountAppend(prev.errors, ItemStep(prev.dict, e).errors, IsDuplicateString);
    }
  }

  /** `String` elements lacking the attribute `attr`. */
  function Lacking(elems: seq<Node>, attr: string): nat
    requires AllElements(elems)
  {
    if elems == [] then 0
    else
      var e := elems[|elems| - 1];
      Lacking(elems[..|elems| - 1], attr) + (if e.name == "String" && GetAttribute(e.attributes, attr).None? then 1 else 0)
  }

  lemma ItemStepMissing(d: Dictionary<StringItem>, e: Node, attr: string, p: DiagKind -> bool)
    requires Valid(d) && e.Element? && (attr == "Name" || attr == "Text")
    requires forall k :: IsItemKind(k) ==> (p(k) <==> k == MissingAttributeIn(attr, "String"))
    ensures Count(ItemStep(d, e).errors, p) == if e.name == "String" && GetAttribute(e.attributes, attr).None? then 1 else 0
  {
    var r := ItemStep(d, e);
    if e.name == "String" && Complete(e).None? {
      assert r.errors == MissingErrors(e);
      MissingErrorsCount(e, attr, p);
    } else {
      CountNone(r.errors, p);
    }
  }

  lemma MissingErrorsCount(e: Node, attr: string, p: DiagKind -> bool)
    requires e.Element? && (attr == "Name" || attr == "Text")
    requires forall k :: IsItemKind(k) ==> (p(k) <==> k == MissingAttributeIn(attr, "String"))
    ensures Count(MissingErrors(e), p) == if GetAttribute(e.attributes, attr).None? then 1 else 0
  {
    var nameErr := if GetAttribute(e.attributes, "Name").None? then [Diag(e.pos, MissingAttributeIn("Name", "String"))] else [];
    var textErr := if GetAttribute(e.attributes, "Text").None? then [Diag(e.pos, MissingAttributeIn("Text", "String"))] else [];
    assert "Name" != "Text";
    CountAppend(nameErr, textErr, p);
    if nameErr != [] { CountSingle(nameErr[0], p); }
    if textErr != [] { CountSingle(textErr[0], p); }
  }

  /** Each missing `Name` and each missing `Text` of a `String` element is
      one error, whether or not the other is missing too. */
  lemma {:induction false} MissingAttributes(elems: seq<Node>, attr: string, p: DiagKind -> bool)
    requires AllElements(elems) && (attr == "Name" || attr == "Text")
    requires forall k :: IsItemKind(k) ==> (p(k) <==> k == MissingAttributeIn(attr, "String"))
    ensures Count(ItemsFrom(elems).errors, p) == Lacking(elems, attr)
  {
    if elems != [] {
      var init, e := elems[..|elems| - 1], elems[|elems| - 1];
      MissingAttributes(init, attr, p);
      var prev := ItemsFrom(init);
      ItemStepMissing(prev.dict, e, attr, p);
      CountAppend(prev.errors, ItemStep(prev.dict, e).errors, p);
    }
  }

  /** The children of a `Strings` element that are not `String` elements. */
  function Unknown(elems: seq<Node>): nat
    requires AllElements(elems)
  {
    if elems == [] then 0
    else Unknown(elems[..|elems| - 1]) + (if elems[|elems| - 1].name != "String" then 1 else 0)
  }

  lemma ItemStepUnknown(d: Dictionary<StringItem>, e: Node, p: DiagKind -> bool)
    requires Valid(d) && e.Element?
    requires forall k :: IsItemKind(k) ==> (p(k) <==> k.UnknownElement?)
    ensures Count(ItemStep(d, e).errors, p) == if e.name != "String" then 1 else 0
  {
    var r := ItemStep(d, e);
    if e.name != "String" {
      CountSingle(r.errors[0], p);
    } else {
      CountNone(r.errors, p);
    }
  }

  /** Each child of a `Strings` element other than `String` is one
      "unknown element" error, and no other child gives one. */
  lemma {:induction false} UnknownElements(elems: seq<Node>, p: DiagKind -> bool)
    requires AllElements(elems)
    requires forall k :: IsItemKind(k) ==> (p(k) <==> k.UnknownElement?)
    ensures Count(ItemsFrom(elems).errors, p) == Unknown(elems)
  {
    if elems != [] {
      var init, e := elems[..|elems| - 1], elems[|elems| - 1];
      UnknownElements(init, p);
      var prev := ItemsFrom(init);
      ItemStepUnknown(prev.dict, e, p);
      CountAppend(prev.errors, ItemStep(prev.dict, e).errors, p);
    }
  }
}
