/** Compiling localized strings: every group is compared with the group of
    the default locale, and a module comes back only when no group lacks a
    default string or has one the default group does not. */
module LocalizedStringsCompiler {
  import opened Basics
  import opened Diagnostics
  import opened StringDictionary
  import opened LocalizedStringsLoader
  import opened WorkflowAst

  /** Some group lists the locale; `First()` throws otherwise. */
  predicate Listed(groups: seq<StringsGroup>, locale: string)
  {
    exists i :: 0 <= i < |groups| && locale in groups[i].locales
  }

  /** The first group whose locales contain `locale`. */
  function DefaultIndex(groups: seq<StringsGroup>, locale: string): (r: nat)
    requires Listed(groups, locale)
    ensures r < |groups| && locale in groups[r].locales
    ensures forall i :: 0 <= i < r ==> locale !in groups[i].locales
  {
    if locale in groups[0].locales then 0
    else
      assert Listed(groups[1..], locale) by {
        var i :| 0 <= i < |groups| && locale in groups[i].locales;
        assert groups[1..][i - 1] == groups[i];
      }
      1 + DefaultIndex(groups[1..], locale)
  }

  /** `From(a).Except(b)`: the elements of `a` not in `b`, in the order of `a`. */
  function Except(a: seq<string>, b: seq<string>): (r: seq<string>)
    ensures forall x :: x in r <==> x in a && x !in b
    ensures |r| <= |a|
  {
    if a == [] then []
    else
      var rest := Except(a[..|a| - 1], b);
      if a[|a| - 1] in b then rest else rest + [a[|a| - 1]]
  }

  /** The names `a` has and `b` lacks, in key order, joined with ", ". */
  function Difference(a: Dictionary<StringItem>, b: Dictionary<StringItem>): string
  {
    Aggregate(Except(Keys(a), Keys(b)), ", ")
  }

  /** The errors for one group that is not the default group, both at the
      group's tag: the default names it lacks, then the names the default
      group lacks, each reported only when the joined text is not empty;
      the group's locales are joined with ";". */
  function GroupErrors(default: StringsGroup, g: StringsGroup): seq<Diag>
  {
    var localesName := Aggregate(g.locales, ";");
    var missing, extra := Difference(default.items, g.items), Difference(g.items, default.items);
    (if missing != "" then [Diag(g.tagPos, MissingStrings(localesName, missing))] else []) +
    (if extra != "" then [Diag(g.tagPos, UnnecessaryStrings(localesName, extra))] else [])
  }

  /** A comparison of a group with the default group. */
  type Comparison = (StringsGroup, StringsGroup) -> seq<Diag>

  /** The errors for the first `n` groups, each compared with the default
      group `d` except `d` itself. */
  function ErrorsUpTo(groups: seq<StringsGroup>, d: nat, n: nat, compare: Comparison): seq<Diag>
    requires d < |groups| && n <= |groups|
  {
    if n == 0 then []
    else ErrorsUpTo(groups, d, n - 1, compare) + (if n - 1 == d then [] else compare(groups[d], groups[n - 1]))
  }

  function CompileErrors(ls: LocalizedStrings): seq<Diag>
    requires Listed(ls.strings, ls.defaultLocale)
  {
    ErrorsUpTo(ls.strings, DefaultIndex(ls.strings, ls.defaultLocale), |ls.strings|, GroupErrors)
  }

  lemma CompileErrorsUnfold(ls: LocalizedStrings, d: nat)
    requires Listed(ls.strings, ls.defaultLocale) && d == DefaultIndex(ls.strings, ls.defaultLocale)
    ensures CompileErrors(ls) == ErrorsUpTo(ls.strings, d, |ls.strings|, GroupErrors)
  {
  }

  /** The loop over the groups: every group but the default group `d` is
      compared with it, and what each comparison reports is appended. */
  method CompareGroups(groups: seq<StringsGroup>, d: nat, compare: Comparison) returns (added: seq<Diag>)
    requires d < |groups|
    ensures added == ErrorsUpTo(groups, d, |groups|, compare)
  {
    var defaultStrings := groups[d];
    added := [];
    var i := 0;
    while i < |groups|
      invariant 0 <= i <= |groups|
      invariant added == ErrorsUpTo(groups, d, i, compare)
    {
      var lss := groups[i];
      if i != d {
        added := added + compare(defaultStrings, lss);
      }
      i := i + 1;
    }
  }

  /** `GuiInstanceLocalizedStrings::Compile`: the error list only grows, and
      the module, named `moduleName` and otherwise empty, comes back exactly
      when it did not grow. */
  method Compile(ls: LocalizedStrings, moduleName: string, errors: seq<Diag>) returns (m: Option<Module>, errs: seq<Diag>)
    requires Listed(ls.strings, ls.defaultLocale)
    ensures errs == errors + CompileErrors(ls)
    ensures m.None? <==> |errs| != |errors|
    ensures m.Some? ==> m.value == Module(moduleName, [])
  {
    var d := DefaultIndex(ls.strings, ls.defaultLocale);
    var errorCount := |errors|;
    var added := CompareGroups(ls.strings, d, GroupErrors);
    CompileErrorsUnfold(ls, d);
    errs := errors + added;
    if |errs| != errorCount {
      return None, errs;
    }
    m := Some(Module(moduleName, []));
  }

  // ---------------------------------------------------------------------------
  // Properties of the compiler

  predicate IsMissing(k: DiagKind) { k.MissingStrings? }

  predicate IsUnnecessary(k: DiagKind) { k.UnnecessaryStrings? }

  /** `a` has a non-empty key `b` lacks. */
  predicate Lacks(a: seq<string>, b: seq<string>)
  {
    exists k :: k in a && k !in b && k != ""
  }

  /** The difference text is non-empty exactly when a non-empty name is
      missing. */
  lemma DifferenceNonEmpty(a: Dictionary<StringItem>, b: Dictionary<StringItem>)
    ensures Difference(a, b) != "" <==> Lacks(Keys(a), Keys(b))
  {
    var r := Except(Keys(a), Keys(b));
    AggregateEmptyIff(r, ", ");
    if Lacks(Keys(a), Keys(b)) {
      var k :| k in Keys(a) && k !in Keys(b) && k != "";
      assert k in r;
    } else {
      forall i | 0 <= i < |r| ensures r[i] == "" {
        assert r[i] in r;
      }
    }
  }

  /** When no name is empty, the difference text lists every name `a` has
      and `b` lacks, in key order, separated by ", ". */
  lemma DifferenceListed(a: Dictionary<StringItem>, b: Dictionary<StringItem>)
    requires forall i :: 0 <= i < |Keys(a)| ==> Keys(a)[i] != ""
    ensures Difference(a, b) == Join(Except(Keys(a), Keys(b)), ", ")
    ensures forall k :: k in Except(Keys(a), Keys(b)) <==> k in Keys(a) && k !in Keys(b)
  {
    var r := Except(Keys(a), Keys(b));
    forall i | 0 <= i < |r| ensures r[i] != "" {
      assert r[i] in Keys(a);
    }
    AggregateIsJoin(r, ", ");
  }

  /** A group is reported for missing strings exactly when the default group
      has a non-empty name it lacks, and for unnecessary strings exactly when
      it has a non-empty name the default group lacks; nothing else is
      reported, and always at the group's tag. */
  lemma GroupErrorsIff(default: StringsGroup, g: StringsGroup)
    ensures Count(GroupErrors(default, g), IsMissing) == if Lacks(Keys(default.items), Keys(g.items)) then 1 else 0
    ensures Count(GroupErrors(default, g), IsUnnecessary) == if Lacks(Keys(g.items), Keys(default.items)) then 1 else 0
    ensures |GroupErrors(default, g)| ==
      (if Lacks(Keys(default.items), Keys(g.items)) then 1 else 0) + (if Lacks(Keys(g.items), Keys(default.items)) then 1 else 0)
    ensures forall i :: 0 <= i < |GroupErrors(default, g)| ==> GroupErrors(default, g)[i].pos == g.tagPos
  {
    DifferenceNonEmpty(default.items, g.items);
    DifferenceNonEmpty(g.items, default.items);
    var localesName := Aggregate(g.locales, ";");
    var missing, extra := Difference(default.items, g.items), Difference(g.items, default.items);
    var a := if missing != "" then [Diag(g.tagPos, MissingStrings(localesName, missing))] else [];
    var b := if extra != "" then [Diag(g.tagPos, UnnecessaryStrings(localesName, extra))] else [];
    assert GroupErrors(default, g) == a + b;
    CountAppend(a, b, IsMissing);
    CountAppend(a, b, IsUnnecessary);
    if a != [] { CountSingle(a[0], IsMissing); CountSingle(a[0], IsUnnecessary); }
    if b != [] { CountSingle(b[0], IsMissing); CountSingle(b[0], IsUnnecessary); }
  }

  /** Same non-empty names as the default group. */
  predicate Agrees(default: StringsGroup, g: StringsGroup)
  {
    !Lacks(Keys(default.items), Keys(g.items)) && !Lacks(Keys(g.items), Keys(default.items))
  }

  lemma {:induction false} ErrorsUpToEmpty(groups: seq<StringsGroup>, d: nat, n: nat, compare: Comparison)
    requires d < |groups| && n <= |groups|
    ensures ErrorsUpTo(groups, d, n, compare) == [] <==> forall i :: 0 <= i < n && i != d ==> compare(groups[d], groups[i]) == []
  {
    if n > 0 {
      var prev := ErrorsUpTo(groups, d, n - 1, compare);
      var last := if n - 1 == d then [] else compare(groups[d], groups[n - 1]);
      assert ErrorsUpTo(groups, d, n, compare) == prev + last;
      ErrorsUpToEmpty(groups, d, n - 1, compare);
      if prev + last == [] {
        assert |prev| == 0 && |last| == 0;
        forall i | 0 <= i < n && i != d ensures compare(groups[d], groups[i]) == [] {
          if i == n - 1 { assert compare(groups[d], groups[i]) == last; }
        }
      } else if prev != [] {
        var i :| 0 <= i < n - 1 && i != d && compare(groups[d], groups[i]) != [];
      } else {
        assert n - 1 != d && compare(groups[d], groups[n - 1]) != [];
      }
    }
  }

  /** `Compile` succeeds exactly when every group other than the default
      group has the same non-empty names as the default group. */
  lemma CompileSucceeds(ls: LocalizedStrings)
    requires Listed(ls.strings, ls.defaultLocale)
    ensures var d := DefaultIndex(ls.strings, ls.defaultLocale);
      CompileErrors(ls) == [] <==> forall i :: 0 <= i < |ls.strings| && i != d ==> Agrees(ls.strings[d], ls.strings[i])
  {
    var d := DefaultIndex(ls.strings, ls.defaultLocale);
    ErrorsUpToEmpty(ls.strings, d, |ls.strings|, GroupErrors);
    forall i | 0 <= i < |ls.strings| && i != d
      ensures GroupErrors(ls.strings[d], ls.strings[i]) == [] <==> Agrees(ls.strings[d], ls.strings[i])
    {
      GroupErrorsIff(ls.strings[d], ls.strings[i]);
    }
  }

  /** Every error comes from comparing some group other than `d` with `d`. */
  lemma {:induction false} ErrorsUpToFrom(groups: seq<StringsGroup>, d: nat, n: nat, compare: Comparison)
    requires d < |groups| && n <= |groups|
    ensures forall e :: e in ErrorsUpTo(groups, d, n, compare) ==>
      exists i :: 0 <= i < n && i != d && e in compare(groups[d], groups[i])
  {
    if n > 0 {
      ErrorsUpToFrom(groups, d, n - 1, compare);
      var prev := ErrorsUpTo(groups, d, n - 1, compare);
      var last := if n - 1 == d then [] else compare(groups[d], groups[n - 1]);
      assert ErrorsUpTo(groups, d, n, compare) == prev + last;
      forall e | e in prev + last
        ensures exists i :: 0 <= i < n && i != d && e in compare(groups[d], groups[i])
      {
        if e in prev {
          var i :| 0 <= i < n - 1 && i != d && e in compare(groups[d], groups[i]);
          assert 0 <= i < n;
        } else {
          assert n - 1 != d && e in compare(groups[d], groups[n - 1]);
        }
      }
    }
  }

  /** At most two errors per compared group. */
  lemma {:induction false} ErrorsUpToBound(groups: seq<StringsGroup>, d: nat, n: nat, compare: Comparison)
    requires d < |groups| && n <= |groups|
    requires forall i :: 0 <= i < |groups| ==> |compare(groups[d], groups[i])| <= 2
    ensures |ErrorsUpTo(groups, d, n, compare)| <= 2 * (if d < n then n - 1 else n)
  {
    if n > 0 {
      ErrorsUpToBound(groups, d, n - 1, compare);
    }
  }

  /** Errors come only from the groups other than the default group, at
      their tags, and at most two per group: the default group is never
      compared with itself. */
  lemma CompileErrorsFrom(ls: LocalizedStrings)
    requires Listed(ls.strings, ls.defaultLocale)
    ensures |CompileErrors(ls)| <= 2 * (|ls.strings| - 1)
    ensures var d := DefaultIndex(ls.strings, ls.defaultLocale);
      forall e :: e in CompileErrors(ls) ==>
        exists i :: 0 <= i < |ls.strings| && i != d && e.pos == ls.strings[i].tagPos
  {
    var d := DefaultIndex(ls.strings, ls.defaultLocale);
    forall i | 0 <= i < |ls.strings| ensures |GroupErrors(ls.strings[d], ls.strings[i])| <= 2 {
      GroupErrorsIff(ls.strings[d], ls.strings[i]);
    }
    ErrorsUpToBound(ls.strings, d, |ls.strings|, GroupErrors);
    ErrorsUpToFrom(ls.strings, d, |ls.strings|, GroupErrors);
    forall e | e in CompileErrors(ls)
      ensures exists i :: 0 <= i < |ls.strings| && i != d && e.pos == ls.strings[i].tagPos
    {
      var i :| 0 <= i < |ls.strings| && i != d && e in GroupErrors(ls.strings[d], ls.strings[i]);
      GroupErrorsIff(ls.strings[d], ls.strings[i]);
      var k :| 0 <= k < |GroupErrors(ls.strings[d], ls.strings[i])| && GroupErrors(ls.strings[d], ls.strings[i])[k] == e;
    }
  }

  /** A string whose name is empty is never reported missing: the check
      looks at the joined text, which an empty name leaves empty. Here the
      empty name is the only one the group lacks. */
  lemma EmptyNameUnreported(default: StringsGroup, g: StringsGroup)
    requires "" in Keys(default.items) && "" !in Keys(g.items)
    requires forall k :: k in Keys(default.items) && k !in Keys(g.items) ==> k == ""
    ensures Count(GroupErrors(default, g), IsMissing) == 0
  {
    GroupErrorsIff(default, g);
  }
}
