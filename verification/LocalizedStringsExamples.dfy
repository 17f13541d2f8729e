/** Worked examples of the localized-strings loader and compiler. */
module LocalizedStringsExamples {
  import opened Basics
  import opened Xml
  import opened Diagnostics
  import opened StringDictionary
  import opened LocalizedStringsLoader
  import opened LocalizedStringsCompiler

  function English(): StringsGroup
  {
    StringsGroup(At(2, 4), ["en-US"], Dictionary([("Hello", StringItem("Hello", "Hello!", At(3, 30)))]))
  }

  function Chinese(): StringsGroup
  {
    StringsGroup(At(5, 4), ["zh-CN"], Dictionary([]))
  }

  /** The Chinese group lacks `Hello`: one error at its tag naming its
      locale and the missing name, and nothing about the default group. */
  lemma MissingGreeting()
    ensures var ls := LocalizedStrings(At(1, 2), "demo::Strings", "en-US", [English(), Chinese()]);
      Listed(ls.strings, ls.defaultLocale) &&
      CompileErrors(ls) == [Diag(At(5, 4), MissingStrings("zh-CN", "Hello"))]
  {
    var ls := LocalizedStrings(At(1, 2), "demo::Strings", "en-US", [English(), Chinese()]);
    assert "en-US" in ls.strings[0].locales;
    assert Keys(English().items) == ["Hello"];
    assert Keys(Chinese().items) == [];
    assert Except(["Hello"], []) == ["Hello"] by {
      assert ["Hello"][..0] == [];
    }
    assert Except([], ["Hello"]) == [];
    assert ["zh-CN"][..0] == [];
    assert ["Hello"][..0] == [];
  }

  function Str(name: string, text: string, row: int): Node
  {
    Element("String", At(row, 6), [Attribute("Name", name, At(row, 14), At(row, 19)),
      Attribute("Text", text, At(row, 27), At(row, 32))], [], At(row, 5))
  }

  /** `<LocalizedStrings ref.Class=... DefaultLocale="en-US">` holding one
      `Strings` element for `en-US` with `Hello` written twice. */
  function Document(): Node
  {
    Element("LocalizedStrings", At(1, 2), [
      Attribute("ref.Class", "demo::Strings", At(1, 19), At(1, 29)),
      Attribute("DefaultLocale", "en-US", At(1, 45), At(1, 59))], [
      Element("Strings", At(2, 6), [Attribute("Locales", "en-US", At(2, 14), At(2, 22))],
        [Str("Hello", "Hi", 3), Str("Hello", "Hello", 4)], At(2, 5))], At(1, 1))
  }

  lemma StrComplete(name: string, text: string, row: int)
    ensures Complete(Str(name, text, row)) == Some(StringItem(name, text, At(row, 33)))
  {
    var attrs := Str(name, text, row).attributes;
    assert GetAttribute(attrs, "Name") == Some(attrs[0]);
    assert GetAttribute(attrs, "Text") == Some(attrs[1]) by {
      assert attrs[1..][0] == attrs[1];
    }
  }

  /** The first `Hello` goes into the empty dictionary. */
  lemma FirstGreeting()
    ensures var first := ItemsFrom([Str("Hello", "Hi", 3)]);
      first.errors == [] && Contains(first.dict, "Hello") &&
      Lookup(first.dict, "Hello") == Some(StringItem("Hello", "Hi", At(3, 33)))
  {
    var elems := [Str("Hello", "Hi", 3)];
    StrComplete("Hello", "Hi", 3);
    var step := ItemStep(Empty(), elems[0]);
    assert step.errors == [] && Lookup(step.dict, "Hello") == Some(StringItem("Hello", "Hi", At(3, 33)));
    assert elems[..0] == [] && elems[..1] == elems;
    ItemsStep(elems, 0);
    assert LookupIn(step.dict.entries, "Hello").Some?;
  }

  /** The `Hello` items: the first one is kept, the second is one error. */
  lemma GreetingItems()
    ensures var items := ItemsFrom([Str("Hello", "Hi", 3), Str("Hello", "Hello", 4)]);
      items.errors == [Diag(At(4, 5), StringAlreadyExists("Hello"))] &&
      Lookup(items.dict, "Hello") == Some(StringItem("Hello", "Hi", At(3, 33)))
  {
    var elems := [Str("Hello", "Hi", 3), Str("Hello", "Hello", 4)];
    FirstGreeting();
    StrComplete("Hello", "Hello", 4);
    assert elems[..1] == [Str("Hello", "Hi", 3)] && elems[..2] == elems;
    ItemsStep(elems, 1);
  }

  /** The one `Strings` element becomes one group for `en-US`. */
  lemma GreetingGroup()
    ensures var g := GroupsFrom(Elements(Document().subNodes), s => ["en-US"]);
      var items := ItemsFrom([Str("Hello", "Hi", 3), Str("Hello", "Hello", 4)]);
      g == Groups({"en-US"}, [StringsGroup(At(2, 6), ["en-US"], items.dict)], items.errors)
  {
    var split: Splitter := s => ["en-US"];
    var root := Document();
    var strings := root.subNodes[0];
    assert Elements(strings.subNodes) == [Str("Hello", "Hi", 3), Str("Hello", "Hello", 4)];
    var items := ItemsFrom(Elements(strings.subNodes));
    var g := GroupStep(Groups({}, [], []), strings, split);
    assert g.groups == [StringsGroup(At(2, 6), ["en-US"], items.dict)];
    assert g.seen == {"en-US"} by { assert SetOf(["en-US"]) == {"en-US"}; }
    assert g.errors == items.errors by {
      assert LocaleErrors({}, ["en-US"], At(2, 14)) == [] by { assert ["en-US"][..0] == []; }
    }
    var elems := Elements(root.subNodes);
    assert elems == [strings];
    assert elems[..0] == [] && elems[..1] == elems;
    GroupsStep(elems, split, 0);
  }

  /** The second `Hello` is one error at its element and is dropped: the
      group keeps the first text, and the default locale is defined. */
  lemma DuplicateGreeting()
    ensures var loaded := Loaded(Document(), s => ["en-US"]);
      LoadErrors(Document(), s => ["en-US"]) == [Diag(At(4, 5), StringAlreadyExists("Hello"))] &&
      loaded.Some? && |loaded.value.strings| == 1 &&
      loaded.value.strings[0].locales == ["en-US"] &&
      Lookup(loaded.value.strings[0].items, "Hello") == Some(StringItem("Hello", "Hi", At(3, 33)))
  {
    GreetingItems();
    GreetingGroup();
    assert HeaderComplete(Document()) && DefaultLocale(Document()) == "en-US";
  }
}
