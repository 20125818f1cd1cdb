/**
 * `test_split`: two sections regrouped by type and text, with hidden texts
 * collapsed. The shown texts are kept abstract: `t` stands for the test's
 * `Foo added.` and `w` for the whitespace `    \n` after its second copy,
 * so each lemma covers the test and every text of the same shape.
 */
module SplitVectors {
  import opened Text
  import opened Grouping

  function Defs(): seq<TypeDefinition> {
    [TypeDefinition("feature", "Features", true),
     TypeDefinition("bugfix", "Bugfixes", true),
     TypeDefinition("misc", "Misc", false)]
  }

  function Frag(issue: string, category: string, content: string): Fragment {
    Fragment(FragmentKey(issue, category, 0), content)
  }

  predicate Blank(w: string) {
    forall i :: 0 <= i < |w| ==> IsSpace(w[i])
  }

  /** A text that stripping leaves alone. */
  predicate Clean(t: string) {
    t != [] && IsStripped(t)
  }

  /** The unnamed section: two hidden `misc` fragments, then three copies of one text. */
  function Unnamed(t: string, w: string): seq<Fragment> {
    [Frag("1", "misc", ""), Frag("baz", "misc", ""), Frag("2", "feature", t),
     Frag("5", "feature", t + w), Frag("6", "bugfix", t)]
  }

  /** The `Web` section: `Web fixed.    ` as a bugfix and `Foo added.` as a feature. */
  function Web(t1: string, w1: string, t2: string): seq<Fragment> {
    [Frag("3", "bugfix", t1 + w1), Frag("4", "feature", t2)]
  }

  /** The strings of the test have the shape the lemmas below assume. */
  lemma TestStrings()
    ensures Clean("Foo added.") && Blank("    \n") && Clean("Web fixed.") && Blank("    ")
  {
  }

  lemma DefsShow(defs: seq<TypeDefinition>)
    requires defs == Defs()
    ensures Defined(defs, "feature") && ShowsContent(defs, "feature")
    ensures Defined(defs, "bugfix") && ShowsContent(defs, "bugfix")
    ensures Defined(defs, "misc") && !ShowsContent(defs, "misc")
  {
  }

  /** A shown fragment's text is its content without the trailing whitespace. */
  lemma ShownText(defs: seq<TypeDefinition>, frag: Fragment, t: string, w: string)
    requires Defined(defs, frag.key.category) && ShowsContent(defs, frag.key.category)
    requires frag.content == t + w && Clean(t) && Blank(w)
    ensures EntryText(defs, frag) == t
  {
    StripAround([], t, w);
    assert [] + t + w == t + w;
  }

  /** Two hidden fragments of one type: one entry with the empty text and both issues. */
  lemma HiddenPair(defs: seq<TypeDefinition>, i0: string, i1: string)
    requires HidesMisc(defs)
    ensures AllDefined(defs, [Frag(i0, "misc", ""), Frag(i1, "misc", "")])
    ensures SplitSection(defs, [Frag(i0, "misc", ""), Frag(i1, "misc", "")]) == [Hidden([i0, i1])]
  {
    var f0, f1 := Frag(i0, "misc", ""), Frag(i1, "misc", "");
    HiddenFirst(defs, i0);
    HiddenNext(defs, [f0], [i0], i1, [i0, i1]);
    assert [f0] + [f1] == [f0, f1];
  }

  lemma HiddenFirst(defs: seq<TypeDefinition>, i: string)
    requires HidesMisc(defs)
    ensures AllDefined(defs, [Frag(i, "misc", "")]) && SplitSection(defs, [Frag(i, "misc", "")]) == [Hidden([i])]
  {
    var f := Frag(i, "misc", "");
    HiddenText(defs, i);
    assert [f][..0] == [] && [f][0] == f;
  }

  /** One more hidden fragment adds its issue to the single hidden entry. */
  lemma HiddenNext(defs: seq<TypeDefinition>, p: seq<Fragment>, issues: seq<string>, i: string, more: seq<string>)
    requires HidesMisc(defs) && AllDefined(defs, p) && SplitSection(defs, p) == [Hidden(issues)]
    requires more == issues + [i]
    ensures AllDefined(defs, p + [Frag(i, "misc", "")]) && SplitSection(defs, p + [Frag(i, "misc", "")]) == [Hidden(more)]
  {
    HiddenText(defs, i);
    AppendHidden(issues, i, more);
    Snoc(defs, p, Frag(i, "misc", ""), [Hidden(issues)], "", [Hidden(more)]);
  }

  /** A second copy of a shown text, with trailing whitespace, joins the first copy's entry. */
  lemma ShownRepeat(defs: seq<TypeDefinition>, q: seq<Fragment>, misc: CategoryGroup, t: string, w: string,
                    issues: seq<string>, j: string)
    requires defs == Defs() && Clean(t) && Blank(w) && misc.category == "misc"
    requires AllDefined(defs, q) && SplitSection(defs, q) == [misc, Features([Entry(t, issues)])]
    ensures AllDefined(defs, q + [Frag(j, "feature", t + w)])
    ensures SplitSection(defs, q + [Frag(j, "feature", t + w)]) == [misc, Features([Entry(t, issues + [j])])]
  {
    var f := Frag(j, "feature", t + w);
    DefsShow(defs);
    ShownText(defs, f, t, w);
    assert [Entry(t, issues)][1..] == [];
    AddToSecond(misc, Features([Entry(t, issues)]), t, j, [Entry(t, issues + [j])]);
    Snoc(defs, q, f, [misc, Features([Entry(t, issues)])], t, [misc, Features([Entry(t, issues + [j])])]);
  }

  /** A fragment of a third type opens a third group after the other two. */
  lemma ThirdType(defs: seq<TypeDefinition>, r: seq<Fragment>, misc: CategoryGroup, feature: CategoryGroup, j: string, t: string)
    requires defs == Defs() && Clean(t) && misc.category == "misc" && feature.category == "feature"
    requires AllDefined(defs, r) && SplitSection(defs, r) == [misc, feature]
    ensures AllDefined(defs, r + [Frag(j, "bugfix", t)])
    ensures SplitSection(defs, r + [Frag(j, "bugfix", t)]) == [misc, feature, CategoryGroup("bugfix", [Entry(t, [j])])]
  {
    DefsShow(defs);
    StripStripped(t);
    var bugfix := CategoryGroup("bugfix", [Entry(t, [j])]);
    assert AddToCategory([feature], "bugfix", t, j) == [feature] + AddToCategory([], "bugfix", t, j);
    assert [misc, feature][1..] == [feature];
    assert AddToCategory([misc, feature], "bugfix", t, j) == [misc] + [feature, bugfix];
    Snoc(defs, r, Frag(j, "bugfix", t), [misc, feature], t, [misc, feature, CategoryGroup("bugfix", [Entry(t, [j])])]);
  }

  lemma UnnamedStart(t: string)
    requires Clean(t)
    ensures var p := [Frag("1", "misc", ""), Frag("baz", "misc", "")] + [Frag("2", "feature", t)];
      AllDefined(Defs(), p) && SplitSection(Defs(), p) == [Hidden(["1", "baz"]), Features([Entry(t, ["2"])])]
  {
    var p := [Frag("1", "misc", ""), Frag("baz", "misc", "")];
    DefsShow(Defs());
    HiddenPair(Defs(), "1", "baz");
    FeatureFirst(Defs(), p, Hidden(["1", "baz"]), "2", t);
  }

  /** The fold over the unnamed section of `test_split`, fragment by fragment. */
  lemma UnnamedFold(t: string, w: string)
    requires Clean(t) && Blank(w)
    ensures var r := [Frag("1", "misc", ""), Frag("baz", "misc", "")] + [Frag("2", "feature", t)]
                     + [Frag("5", "feature", t + w)] + [Frag("6", "bugfix", t)];
      && AllDefined(Defs(), r)
      && SplitSection(Defs(), r) == [Hidden(["1", "baz"]), Features([Entry(t, ["2", "5"])]), CategoryGroup("bugfix", [Entry(t, ["6"])])]
  {
    var defs, misc := Defs(), Hidden(["1", "baz"]);
    var p := [Frag("1", "misc", ""), Frag("baz", "misc", "")];
    UnnamedStart(t);
    ShownRepeat(defs, p + [Frag("2", "feature", t)], misc, t, w, ["2"], "5");
    assert ["2"] + ["5"] == ["2", "5"];
    ThirdType(defs, p + [Frag("2", "feature", t)] + [Frag("5", "feature", t + w)], misc, Features([Entry(t, ["2", "5"])]), "6", t);
  }

  /** Equal texts merge their issues in input order; `misc` collapses to the empty text. */
  lemma SplitUnnamedSection(t: string, w: string)
    requires Clean(t) && Blank(w)
    ensures AllDefined(Defs(), Unnamed(t, w))
    ensures SplitSection(Defs(), Unnamed(t, w))
      == [CategoryGroup("misc", [Entry("", ["1", "baz"])]),
          CategoryGroup("feature", [Entry(t, ["2", "5"])]),
          CategoryGroup("bugfix", [Entry(t, ["6"])])]
  {
    UnnamedFold(t, w);
    assert [Frag("1", "misc", ""), Frag("baz", "misc", "")] + [Frag("2", "feature", t)]
           + [Frag("5", "feature", t + w)] + [Frag("6", "bugfix", t)] == Unnamed(t, w);
  }

  /** Types appear in the order their first fragment arrives: `bugfix` before `feature` here. */
  lemma SplitWebSection(t1: string, w1: string, t2: string)
    requires Clean(t1) && Blank(w1) && Clean(t2)
    ensures AllDefined(Defs(), Web(t1, w1, t2))
    ensures SplitSection(Defs(), Web(t1, w1, t2))
      == [CategoryGroup("bugfix", [Entry(t1, ["3"])]), CategoryGroup("feature", [Entry(t2, ["4"])])]
  {
    var defs := Defs();
    var f0, f1 := Frag("3", "bugfix", t1 + w1), Frag("4", "feature", t2);
    DefsShow(defs);
    ShownText(defs, f0, t1, w1);
    FragmentTexts(defs, "4", t2);
    var bugfix := CategoryGroup("bugfix", [Entry(t1, ["3"])]);
    var feature := CategoryGroup("feature", [Entry(t2, ["4"])]);
    WebAdds(bugfix, feature, t1, t2);
    assert SplitSection(defs, []) == [] && [] + [f0] == [f0];
    Snoc(defs, [], f0, [], t1, [bugfix]);
    Snoc(defs, [f0], f1, [bugfix], t2, [bugfix, feature]);
    assert [f0] + [f1] == Web(t1, w1, t2);
  }

  /** The two sections of `test_split` with the test's own strings. */
  function SplitInput(): seq<SectionFragments> {
    [SectionFragments("", Unnamed("Foo added.", "    \n")),
     SectionFragments("Web", Web("Web fixed.", "    ", "Foo added."))]
  }

  function SplitExpected(): seq<SectionGroups> {
    [SectionGroups("", [CategoryGroup("misc", [Entry("", ["1", "baz"])]),
                        CategoryGroup("feature", [Entry("Foo added.", ["2", "5"])]),
                        CategoryGroup("bugfix", [Entry("Foo added.", ["6"])])]),
     SectionGroups("Web", [CategoryGroup("bugfix", [Entry("Web fixed.", ["3"])]),
                           CategoryGroup("feature", [Entry("Foo added.", ["4"])])])]
  }

  predicate SplitInputDefined() {
    forall s :: 0 <= s < |SplitInput()| ==> AllDefined(Defs(), SplitInput()[s].fragments)
  }

  /** `test_split`: each section regrouped on its own, trailing whitespace gone. */
  lemma TestSplit()
    ensures SplitInputDefined()
    ensures SplitFragments(Defs(), SplitInput()) == SplitExpected()
  {
    var input, out := SplitInput(), SplitExpected();
    TestStrings();
    SplitUnnamedSection("Foo added.", "    \n");
    SplitWebSection("Web fixed.", "    ", "Foo added.");
    SplitTwo(Defs(), input, out);
  }

  /** Two sections regrouped one by one. */
  lemma SplitTwo(defs: seq<TypeDefinition>, input: seq<SectionFragments>, out: seq<SectionGroups>)
    requires |input| == 2 && |out| == 2
    requires AllDefined(defs, input[0].fragments) && AllDefined(defs, input[1].fragments)
    requires out[0] == SectionGroups(input[0].name, SplitSection(defs, input[0].fragments))
    requires out[1] == SectionGroups(input[1].name, SplitSection(defs, input[1].fragments))
    ensures forall s :: 0 <= s < |input| ==> AllDefined(defs, input[s].fragments)
    ensures SplitFragments(defs, input) == out
  {
    var r := SplitFragments(defs, input);
    assert r[0] == out[0] && r[1] == out[1];
  }

  lemma WebAdds(bugfix: CategoryGroup, feature: CategoryGroup, t1: string, t2: string)
    requires bugfix == CategoryGroup("bugfix", [Entry(t1, ["3"])])
    requires feature == CategoryGroup("feature", [Entry(t2, ["4"])])
    ensures AddToCategory([], "bugfix", t1, "3") == [bugfix]
    ensures AddToCategory([bugfix], "feature", t2, "4") == [bugfix, feature]
  {
    assert AddToCategory([bugfix], "feature", t2, "4") == [bugfix] + AddToCategory([], "feature", t2, "4");
  }
  /**
   * The unnamed section of `test_basic`: four hidden `misc` fragments, then
   * features with texts `t1` (`Stuff!`), `t2` (`Foo added.`, three times) and
   * `t3` (`Fun!`).
   */
  function Basic(t1: string, t2: string, t3: string): seq<Fragment> {
    [Frag("142", "misc", ""), Frag("1", "misc", ""), Frag("9", "misc", ""), Frag("bar", "misc", ""),
     Frag("4", "feature", t1), Frag("2", "feature", t2), Frag("72", "feature", t2), Frag("9", "feature", t2),
     Frag("baz", "feature", t3)]
  }

  predicate BasicTexts(t1: string, t2: string, t3: string) {
    Clean(t1) && Clean(t2) && Clean(t3) && t1 != t2 && t1 != t3 && t2 != t3
  }

  lemma BasicStrings()
    ensures BasicTexts("Stuff!", "Foo added.", "Fun!") && Clean("Web fixed.")
  {
  }

  function Hidden(issues: seq<string>): CategoryGroup { CategoryGroup("misc", [Entry("", issues)]) }

  function Features(entries: seq<Entry>): CategoryGroup { CategoryGroup("feature", entries) }

  /** Regrouping one more fragment, after a prefix already regrouped. */
  lemma Snoc(defs: seq<TypeDefinition>, p: seq<Fragment>, f: Fragment, before: seq<CategoryGroup>, text: string, after: seq<CategoryGroup>)
    requires AllDefined(defs, p) && Defined(defs, f.key.category) && SplitSection(defs, p) == before
    requires EntryText(defs, f) == text && after == AddToCategory(before, f.key.category, text, f.key.issue)
    ensures AllDefined(defs, p + [f]) && SplitSection(defs, p + [f]) == after
  {
    SplitSectionSnoc(defs, p, f);
  }

  /** The definitions declare `misc` with its text hidden. */
  predicate HidesMisc(defs: seq<TypeDefinition>) {
    Defined(defs, "misc") && !ShowsContent(defs, "misc")
  }

  lemma HiddenText(defs: seq<TypeDefinition>, i: string)
    requires HidesMisc(defs)
    ensures EntryText(defs, Frag(i, "misc", "")) == ""
  {
  }

  lemma FragmentTexts(defs: seq<TypeDefinition>, i: string, t: string)
    requires defs == Defs() && Clean(t)
    ensures Defined(defs, "misc") && EntryText(defs, Frag(i, "misc", "")) == ""
    ensures Defined(defs, "feature") && EntryText(defs, Frag(i, "feature", t)) == t
  {
    DefsShow(defs);
    StripStripped(t);
  }

  /** A repeated text appends its issue to its entry, after an entry with another text. */
  lemma AddToLast(e0: Entry, text: string, issues: seq<string>, issue: string)
    requires e0.text != text
    ensures AddEntry([e0, Entry(text, issues)], text, issue) == [e0, Entry(text, issues + [issue])]
  {
    assert [e0, Entry(text, issues)][1..] == [Entry(text, issues)];
  }

  /** A new text becomes a new entry after the others. */
  lemma AddNew(before: seq<Entry>, text: string, issue: string)
    requires |before| <= 2 && forall k :: 0 <= k < |before| ==> before[k].text != text
    ensures AddEntry(before, text, issue) == before + [Entry(text, [issue])]
  {
    if before != [] {
      AddNew(before[1..], text, issue);
      assert before == [before[0]] + before[1..];
    }
  }

  /** Adding to the second type of two leaves the first alone. */
  lemma AddToSecond(first: CategoryGroup, g: CategoryGroup, text: string, issue: string, after: seq<Entry>)
    requires first.category != g.category && after == AddEntry(g.entries, text, issue)
    ensures AddToCategory([first, g], g.category, text, issue) == [first, CategoryGroup(g.category, after)]
  {
    assert [first, g][1..] == [g];
  }

  /** A hidden fragment adds its issue to the single hidden entry. */
  lemma AppendHidden(issues: seq<string>, i: string, more: seq<string>)
    requires more == issues + [i]
    ensures AddToCategory([Hidden(issues)], "misc", "", i) == [Hidden(more)]
  {
    var g := Hidden(issues);
    assert g.category == "misc" && g.entries == [Entry("", issues)];
    assert AddEntry(g.entries, "", i) == [Entry("", more)] by {
      assert g.entries[0].text == "" && g.entries[1..] == [];
    }
    assert [g][1..] == [];
  }

  /** Hidden fragments of one type collapse into a single entry listing their issues in order. */
  lemma HiddenRun(defs: seq<TypeDefinition>, i0: string, i1: string, i2: string, i3: string)
    requires HidesMisc(defs)
    ensures var p := [Frag(i0, "misc", ""), Frag(i1, "misc", ""), Frag(i2, "misc", ""), Frag(i3, "misc", "")];
      AllDefined(defs, p) && SplitSection(defs, p) == [Hidden([i0, i1, i2, i3])]
  {
    var f0, f1, f2, f3 := Frag(i0, "misc", ""), Frag(i1, "misc", ""), Frag(i2, "misc", ""), Frag(i3, "misc", "");
    HiddenPair(defs, i0, i1);
    HiddenNext(defs, [f0, f1], [i0, i1], i2, [i0, i1, i2]);
    assert [f0, f1] + [f2] == [f0, f1, f2];
    HiddenNext(defs, [f0, f1, f2], [i0, i1, i2], i3, [i0, i1, i2, i3]);
    assert [f0, f1, f2] + [f3] == [f0, f1, f2, f3];
  }

  /** The first feature fragment after the hidden type opens a second type. */
  lemma FeatureFirst(defs: seq<TypeDefinition>, p: seq<Fragment>, misc: CategoryGroup, j: string, t: string)
    requires defs == Defs() && Clean(t) && misc.category == "misc"
    requires AllDefined(defs, p) && SplitSection(defs, p) == [misc]
    ensures AllDefined(defs, p + [Frag(j, "feature", t)])
    ensures SplitSection(defs, p + [Frag(j, "feature", t)]) == [misc, Features([Entry(t, [j])])]
  {
    FragmentTexts(defs, j, t);
    assert [misc][1..] == [];
    Snoc(defs, p, Frag(j, "feature", t), [misc], t, [misc, Features([Entry(t, [j])])]);
  }

  /** A second feature text becomes a second entry. */
  lemma FeatureSecond(defs: seq<TypeDefinition>, q: seq<Fragment>, misc: CategoryGroup, e0: Entry, t: string, j: string)
    requires defs == Defs() && Clean(t) && misc.category == "misc" && e0.text != t
    requires AllDefined(defs, q) && SplitSection(defs, q) == [misc, Features([e0])]
    ensures AllDefined(defs, q + [Frag(j, "feature", t)])
    ensures SplitSection(defs, q + [Frag(j, "feature", t)]) == [misc, Features([e0, Entry(t, [j])])]
  {
    FragmentTexts(defs, j, t);
    AddNew([e0], t, j);
    assert [e0] + [Entry(t, [j])] == [e0, Entry(t, [j])];
    AddToSecond(misc, Features([e0]), t, j, [e0, Entry(t, [j])]);
    Snoc(defs, q, Frag(j, "feature", t), [misc, Features([e0])], t, [misc, Features([e0, Entry(t, [j])])]);
  }

  /** A repeated feature text adds its issue to the existing entry instead of making a new one. */
  lemma FeatureRepeat(defs: seq<TypeDefinition>, q: seq<Fragment>, misc: CategoryGroup, e0: Entry, t: string,
                      issues: seq<string>, j: string)
    requires defs == Defs() && Clean(t) && misc.category == "misc" && e0.text != t
    requires AllDefined(defs, q) && SplitSection(defs, q) == [misc, Features([e0, Entry(t, issues)])]
    ensures AllDefined(defs, q + [Frag(j, "feature", t)])
    ensures SplitSection(defs, q + [Frag(j, "feature", t)]) == [misc, Features([e0, Entry(t, issues + [j])])]
  {
    FragmentTexts(defs, j, t);
    AddToLast(e0, t, issues, j);
    AddToSecond(misc, Features([e0, Entry(t, issues)]), t, j, [e0, Entry(t, issues + [j])]);
    Snoc(defs, q, Frag(j, "feature", t), [misc, Features([e0, Entry(t, issues)])], t, [misc, Features([e0, Entry(t, issues + [j])])]);
  }

  /** A third feature text becomes a third entry. */
  lemma FeatureThird(defs: seq<TypeDefinition>, q: seq<Fragment>, misc: CategoryGroup, e0: Entry, e1: Entry, t: string, j: string)
    requires defs == Defs() && Clean(t) && misc.category == "misc" && e0.text != t && e1.text != t
    requires AllDefined(defs, q) && SplitSection(defs, q) == [misc, Features([e0, e1])]
    ensures AllDefined(defs, q + [Frag(j, "feature", t)])
    ensures SplitSection(defs, q + [Frag(j, "feature", t)]) == [misc, Features([e0, e1, Entry(t, [j])])]
  {
    FragmentTexts(defs, j, t);
    AddNew([e0, e1], t, j);
    assert [e0, e1] + [Entry(t, [j])] == [e0, e1, Entry(t, [j])];
    AddToSecond(misc, Features([e0, e1]), t, j, [e0, e1, Entry(t, [j])]);
    Snoc(defs, q, Frag(j, "feature", t), [misc, Features([e0, e1])], t, [misc, Features([e0, e1, Entry(t, [j])])]);
  }

  function HiddenFrags(): seq<Fragment> {
    [Frag("142", "misc", ""), Frag("1", "misc", ""), Frag("9", "misc", ""), Frag("bar", "misc", "")]
  }

  /** The first six fragments of the unnamed section of `test_basic`. */
  lemma BasicFoldStart(t1: string, t2: string)
    requires Clean(t1) && Clean(t2) && t1 != t2
    ensures var r := HiddenFrags() + [Frag("4", "feature", t1)] + [Frag("2", "feature", t2)];
      && AllDefined(Defs(), r)
      && SplitSection(Defs(), r) == [Hidden(["142", "1", "9", "bar"]), Features([Entry(t1, ["4"]), Entry(t2, ["2"])])]
  {
    var defs, p := Defs(), HiddenFrags();
    var misc := Hidden(["142", "1", "9", "bar"]);
    DefsShow(defs);
    HiddenRun(defs, "142", "1", "9", "bar");
    FeatureFirst(defs, p, misc, "4", t1);
    FeatureSecond(defs, p + [Frag("4", "feature", t1)], misc, Entry(t1, ["4"]), t2, "2");
  }

  /** The fold over the unnamed section of `test_basic`, fragment by fragment. */
  lemma BasicFold(t1: string, t2: string, t3: string)
    requires BasicTexts(t1, t2, t3)
    ensures var r := HiddenFrags() + [Frag("4", "feature", t1)] + [Frag("2", "feature", t2)]
                     + [Frag("72", "feature", t2)] + [Frag("9", "feature", t2)] + [Frag("baz", "feature", t3)];
      && AllDefined(Defs(), r)
      && SplitSection(Defs(), r)
         == [Hidden(["142", "1", "9", "bar"]), Features([Entry(t1, ["4"]), Entry(t2, ["2", "72", "9"]), Entry(t3, ["baz"])])]
  {
    var defs := Defs();
    var misc := Hidden(["142", "1", "9", "bar"]);
    var e0 := Entry(t1, ["4"]);
    BasicFoldStart(t1, t2);
    var q := HiddenFrags() + [Frag("4", "feature", t1)] + [Frag("2", "feature", t2)];
    FeatureRepeat(defs, q, misc, e0, t2, ["2"], "72");
    assert ["2"] + ["72"] == ["2", "72"];
    FeatureRepeat(defs, q + [Frag("72", "feature", t2)], misc, e0, t2, ["2", "72"], "9");
    assert ["2", "72"] + ["9"] == ["2", "72", "9"];
    FeatureThird(defs, q + [Frag("72", "feature", t2)] + [Frag("9", "feature", t2)], misc, e0, Entry(t2, ["2", "72", "9"]), t3, "baz");
  }

  /**
   * Entries keep the order in which their texts first arrive and issues the
   * order of their fragments: nothing is sorted by the regrouping.
   */
  lemma SplitBasicSection(t1: string, t2: string, t3: string)
    requires BasicTexts(t1, t2, t3)
    ensures AllDefined(Defs(), Basic(t1, t2, t3))
    ensures SplitSection(Defs(), Basic(t1, t2, t3))
      == [CategoryGroup("misc", [Entry("", ["142", "1", "9", "bar"])]),
          CategoryGroup("feature", [Entry(t1, ["4"]), Entry(t2, ["2", "72", "9"]), Entry(t3, ["baz"])])]
  {
    BasicFold(t1, t2, t3);
    assert HiddenFrags() + [Frag("4", "feature", t1)] + [Frag("2", "feature", t2)]
           + [Frag("72", "feature", t2)] + [Frag("9", "feature", t2)] + [Frag("baz", "feature", t3)] == Basic(t1, t2, t3);
  }

  /** The `Web` section of `test_basic`: one bugfix. */
  lemma SplitBasicWeb(t: string)
    requires Clean(t)
    ensures AllDefined(Defs(), [Frag("3", "bugfix", t)])
    ensures SplitSection(Defs(), [Frag("3", "bugfix", t)]) == [CategoryGroup("bugfix", [Entry(t, ["3"])])]
  {
    var u := [Frag("3", "bugfix", t)];
    DefsShow(Defs());
    StripStripped(t);
    assert u[..0] == [];
  }
}

/** `test_basic`: issues sorted by value after the non-numeric ones, entries by their issue lists. */
module OrderVectors {
  import opened Text
  import opened Grouping
  import opened Ordering
  import opened Render

  lemma Keys()
    ensures KeyOf("1") == IssueKey(1, "") && KeyOf("2") == IssueKey(2, "") && KeyOf("4") == IssueKey(4, "")
    ensures KeyOf("9") == IssueKey(9, "") && KeyOf("72") == IssueKey(72, "") && KeyOf("142") == IssueKey(142, "")
    ensures KeyOf("bar") == IssueKey(-1, "bar") && KeyOf("baz") == IssueKey(-1, "baz")
  {
    assert ParseNat("142") == 142 by { assert "142"[..2] == "14"; assert "14"[..1] == "1"; }
    assert ParseNat("72") == 72 by { assert "72"[..1] == "7"; }
    assert "9"[..0] == "" && "1"[..0] == "" && "2"[..0] == "" && "4"[..0] == "";
    assert !IsNumeric("bar") by { assert !IsDigit("bar"[0]); }
    assert !IsNumeric("baz") by { assert !IsDigit("baz"[0]); }
  }

  /** Keys in strictly increasing order make a sorted list with distinct keys. */
  lemma IncreasingKeys(want: seq<string>)
    requires forall i :: 0 <= i < |want| - 1 ==> KeyLt(KeyOf(want[i]), KeyOf(want[i + 1]))
    ensures SortedBy(want, IssueSortKey)
    ensures forall i, j :: 0 <= i < j < |want| ==> IssueSortKey(want[i]) != IssueSortKey(want[j])
  {
    forall i, j | 0 <= i < j < |want|
      ensures KeyLt(KeyOf(want[i]), KeyOf(want[j]))
    {
      var k := i;
      while k < j - 1
        invariant i <= k < j && KeyLt(KeyOf(want[i]), KeyOf(want[k + 1]))
      {
        KeyLtTransitive(KeyOf(want[i]), KeyOf(want[k + 1]), KeyOf(want[k + 2]));
        k := k + 1;
      }
    }
    forall i, j | 0 <= i < j < |want|
      ensures !KeysLt(IssueSortKey(want[j]), IssueSortKey(want[i]))
      ensures IssueSortKey(want[i]) != IssueSortKey(want[j])
    {
      KeyLtIrreflexive(KeyOf(want[i]));
      KeysLtAsymmetric(IssueSortKey(want[i]), IssueSortKey(want[j]));
    }
  }

  /** Sorting happens on the numbers: 1, 9, 142 rather than the asciibetical 1, 142, 9. */
  lemma MiscIssuesSorted(given: seq<string>, want: seq<string>)
    requires given == ["142", "1", "9", "bar"] && want == ["bar", "1", "9", "142"]
    ensures SortIssues(given) == want
  {
    MiscWantSorted(want);
    MiscPermutation(given, want);
    SortIssuesDetermined(given, want);
  }

  lemma MiscWantSorted(want: seq<string>)
    requires want == ["bar", "1", "9", "142"]
    ensures SortedBy(want, IssueSortKey)
    ensures forall i, j :: 0 <= i < j < |want| ==> IssueSortKey(want[i]) != IssueSortKey(want[j])
  {
    Keys();
    IncreasingKeys(want);
  }

  lemma MiscPermutation(given: seq<string>, want: seq<string>)
    requires given == ["142", "1", "9", "bar"] && want == ["bar", "1", "9", "142"]
    ensures multiset(want) == multiset(given)
  {
  }

  lemma FeatureIssuesSorted(given: seq<string>, want: seq<string>)
    requires given == ["2", "72", "9"] && want == ["2", "9", "72"]
    ensures SortIssues(given) == want
  {
    Keys();
    IncreasingKeys(want);
    assert multiset(want) == multiset(given);
    SortIssuesDetermined(given, want);
  }

  lemma SingleIssueSorted(issues: seq<string>)
    requires |issues| == 1
    ensures SortIssues(issues) == issues
  {
    SortIssuesDetermined(issues, issues);
  }

  function FeatureWant(): seq<Entry> {
    [Entry("Fun!", ["baz"]), Entry("Foo added.", ["2", "9", "72"]), Entry("Stuff!", ["4"])]
  }

  lemma FeatureKeys()
    ensures EntryKey(FeatureWant()[0]) == [IssueKey(-1, "baz")]
    ensures EntryKey(FeatureWant()[1]) == [IssueKey(2, ""), IssueKey(9, ""), IssueKey(72, "")]
    ensures EntryKey(FeatureWant()[2]) == [IssueKey(4, "")]
  {
    Keys();
  }

  lemma FeatureWantSorted()
    ensures SortedBy(FeatureWant(), EntryKey)
    ensures forall i, j :: 0 <= i < j < |FeatureWant()| ==> EntryKey(FeatureWant()[i]) != EntryKey(FeatureWant()[j])
  {
    FeatureKeys();
    var w := FeatureWant();
    assert KeysLt(EntryKey(w[0]), EntryKey(w[1]));
    assert KeysLt(EntryKey(w[1]), EntryKey(w[2]));
    assert KeysLt(EntryKey(w[0]), EntryKey(w[2]));
    forall i, j | 0 <= i < j < |w| ensures !KeysLt(EntryKey(w[j]), EntryKey(w[i])) {
      KeysLtAsymmetric(EntryKey(w[i]), EntryKey(w[j]));
    }
  }

  /** Sorting the issues of three entries, entry by entry. */
  lemma WithSorted3(given: seq<Entry>, sorted: seq<Entry>)
    requires |given| == 3 && |sorted| == 3
    requires sorted[0] == Entry(given[0].text, SortIssues(given[0].issues))
    requires sorted[1] == Entry(given[1].text, SortIssues(given[1].issues))
    requires sorted[2] == Entry(given[2].text, SortIssues(given[2].issues))
    ensures WithSortedIssues(given) == sorted
  {
    var w := WithSortedIssues(given);
    assert w[0] == sorted[0] && w[1] == sorted[1] && w[2] == sorted[2];
  }

  lemma Reversed3<T>(a: T, b: T, c: T)
    ensures multiset([a, b, c]) == multiset([c, b, a])
  {
  }

  /** Each entry of the feature type gets its issues sorted: `2, 72, 9` becomes `2, 9, 72`. */
  lemma FeatureIssuesEachSorted(given: seq<Entry>, sorted: seq<Entry>)
    requires given == [Entry("Stuff!", ["4"]), Entry("Foo added.", ["2", "72", "9"]), Entry("Fun!", ["baz"])]
    requires sorted == [Entry("Stuff!", ["4"]), Entry("Foo added.", ["2", "9", "72"]), Entry("Fun!", ["baz"])]
    ensures WithSortedIssues(given) == sorted
  {
    FeatureIssuesSorted(given[1].issues, sorted[1].issues);
    SingleIssueSorted(given[0].issues);
    SingleIssueSorted(given[2].issues);
    WithSorted3(given, sorted);
  }

  /** Within a type, entries follow their lowest issues: `baz` first, then #2, #9, #72, then #4. */
  lemma FeatureEntriesOrdered(given: seq<Entry>, want: seq<Entry>)
    requires given == [Entry("Stuff!", ["4"]), Entry("Foo added.", ["2", "72", "9"]), Entry("Fun!", ["baz"])]
    requires want == FeatureWant()
    ensures OrderEntries(given) == want
  {
    var sorted := [want[2], want[1], want[0]];
    FeatureIssuesEachSorted(given, sorted);
    Reversed3(want[0], want[1], want[2]);
    assert want == [want[0], want[1], want[2]];
    FeatureWantSorted();
    OrderEntriesDetermined(given, want);
  }
}

/** `test_basic` and `test_issue_format`: the rendered document, line by line. */
module RenderVectors {
  import opened Wrappers
  import opened Text
  import opened Grouping
  import opened Ordering
  import opened Render
  import opened OrderVectors
  import SplitVectors

  lemma NumbersShown()
    ensures RenderIssue(None, "1") == "#1" && RenderIssue(None, "2") == "#2" && RenderIssue(None, "3") == "#3"
    ensures RenderIssue(None, "4") == "#4" && RenderIssue(None, "9") == "#9" && RenderIssue(None, "72") == "#72"
    ensures RenderIssue(None, "142") == "#142" && RenderIssue(None, "bar") == "bar" && RenderIssue(None, "baz") == "baz"
  {
    assert !IsDigit("bar"[0]) && !IsDigit("baz"[0]);
  }

  lemma RenderedFrom(fmt: Option<string>, entries: seq<Entry>, ordered: seq<Entry>, shown: seq<Entry>)
    requires OrderEntries(entries) == ordered && |shown| == |ordered|
    requires forall k :: 0 <= k < |ordered| ==> RenderEntry(fmt, ordered[k]) == shown[k]
    ensures RenderEntries(fmt, entries) == shown
  {
  }

  lemma EntryShown(fmt: Option<string>, e: Entry, text: string, shown: seq<string>)
    requires e.text == text && |e.issues| == |shown|
    requires forall i :: 0 <= i < |shown| ==> RenderIssue(fmt, e.issues[i]) == shown[i]
    ensures RenderEntry(fmt, e) == Entry(text, shown)
  {
  }

  function FeatureShownWant(): seq<Entry> {
    [Entry("Fun!", ["baz"]), Entry("Foo added.", ["#2", "#9", "#72"]), Entry("Stuff!", ["#4"])]
  }

  lemma FeatureShown(ordered: seq<Entry>, shown: seq<Entry>)
    requires ordered == FeatureWant() && shown == FeatureShownWant()
    ensures |shown| == |ordered| && forall k :: 0 <= k < |ordered| ==> RenderEntry(None, ordered[k]) == shown[k]
  {
    NumbersShown();
    EntryShown(None, ordered[0], "Fun!", ["baz"]);
    var s := ["#2", "#9", "#72"];
    assert RenderIssue(None, ordered[1].issues[0]) == s[0];
    assert RenderIssue(None, ordered[1].issues[1]) == s[1];
    assert RenderIssue(None, ordered[1].issues[2]) == s[2];
    EntryShown(None, ordered[1], "Foo added.", s);
    EntryShown(None, ordered[2], "Stuff!", ["#4"]);
  }

  lemma FeatureRendered(entries: seq<Entry>)
    requires entries == [Entry("Stuff!", ["4"]), Entry("Foo added.", ["2", "72", "9"]), Entry("Fun!", ["baz"])]
    ensures RenderEntries(None, entries) == FeatureShownWant()
  {
    var ordered, shown := FeatureWant(), FeatureShownWant();
    FeatureEntriesOrdered(entries, ordered);
    FeatureShown(ordered, shown);
    RenderedFrom(None, entries, ordered, shown);
  }

  /** The bullet of the `k`-th entry of a type whose text is shown. */
  lemma BulletIs(def: TypeDefinition, entries: seq<Entry>, k: nat, line: string)
    requires def.showContent && k < |entries|
    requires line == "- " + entries[k].text + " (" + Join(entries[k].issues, ", ") + ")"
    ensures k < |EntryLines(def, entries)| && EntryLines(def, entries)[k] == line
  {
  }

  lemma FunBullet(e: Entry)
    requires e == Entry("Fun!", ["baz"])
    ensures "- " + e.text + " (" + Join(e.issues, ", ") + ")" == "- Fun! (baz)"
  {
  }

  lemma FooBullet(e: Entry)
    requires e == Entry("Foo added.", ["#2", "#9", "#72"])
    ensures "- " + e.text + " (" + Join(e.issues, ", ") + ")" == "- Foo added. (#2, #9, #72)"
  {
    Join3("#2", "#9", "#72", ", ");
  }

  lemma StuffBullet(e: Entry)
    requires e == Entry("Stuff!", ["#4"])
    ensures "- " + e.text + " (" + Join(e.issues, ", ") + ")" == "- Stuff! (#4)"
  {
  }

  /** One bullet per feature, the text followed by its issues in parentheses. */
  lemma FeatureLines(def: TypeDefinition, rendered: seq<Entry>)
    requires def == TypeDefinition("feature", "Features", true)
    requires rendered == [Entry("Fun!", ["baz"]), Entry("Foo added.", ["#2", "#9", "#72"]), Entry("Stuff!", ["#4"])]
    ensures EntryLines(def, rendered) == ["- Fun! (baz)", "- Foo added. (#2, #9, #72)", "- Stuff! (#4)"]
  {
    FunBullet(rendered[0]);
    FooBullet(rendered[1]);
    StuffBullet(rendered[2]);
    BulletIs(def, rendered, 0, "- Fun! (baz)");
    BulletIs(def, rendered, 1, "- Foo added. (#2, #9, #72)");
    BulletIs(def, rendered, 2, "- Stuff! (#4)");
  }

  function MiscWant(): seq<Entry> {
    [Entry("", ["bar", "1", "9", "142"])]
  }

  function MiscShownWant(): seq<Entry> {
    [Entry("", ["bar", "#1", "#9", "#142"])]
  }

  lemma MiscOrdered(entries: seq<Entry>, ordered: seq<Entry>)
    requires entries == [Entry("", ["142", "1", "9", "bar"])] && ordered == MiscWant()
    ensures OrderEntries(entries) == ordered
  {
    MiscIssuesSorted(entries[0].issues, ordered[0].issues);
    SingleEntryOrdered(entries, ordered);
  }

  /** A single entry only has its issues sorted. */
  lemma SingleEntryOrdered(entries: seq<Entry>, ordered: seq<Entry>)
    requires |entries| == 1 && |ordered| == 1
    requires ordered[0] == Entry(entries[0].text, SortIssues(entries[0].issues))
    ensures OrderEntries(entries) == ordered
  {
    assert WithSortedIssues(entries) == ordered;
    OrderEntriesDetermined(entries, ordered);
  }

  lemma MiscShown(ordered: seq<Entry>, shown: seq<Entry>)
    requires ordered == MiscWant() && shown == MiscShownWant()
    ensures |shown| == |ordered| && forall k :: 0 <= k < |ordered| ==> RenderEntry(None, ordered[k]) == shown[k]
  {
    NumbersShown();
    var s := ["bar", "#1", "#9", "#142"];
    assert RenderIssue(None, ordered[0].issues[0]) == s[0];
    assert RenderIssue(None, ordered[0].issues[1]) == s[1];
    assert RenderIssue(None, ordered[0].issues[2]) == s[2];
    assert RenderIssue(None, ordered[0].issues[3]) == s[3];
    EntryShown(None, ordered[0], "", s);
  }

  lemma MiscRendered(entries: seq<Entry>)
    requires entries == [Entry("", ["142", "1", "9", "bar"])]
    ensures RenderEntries(None, entries) == MiscShownWant()
  {
    var ordered, shown := MiscWant(), MiscShownWant();
    MiscOrdered(entries, ordered);
    MiscShown(ordered, shown);
    RenderedFrom(None, entries, ordered, shown);
  }

  /** The one bullet of a type whose text is hidden. */
  lemma HiddenBulletIs(def: TypeDefinition, entries: seq<Entry>, line: string)
    requires !def.showContent
    requires line == "- " + Join(IssuesIn(entries, ""), ", ")
    ensures EntryLines(def, entries) == [line]
  {
  }

  lemma MiscBullet(issues: seq<string>)
    requires issues == ["bar", "#1", "#9", "#142"]
    ensures "- " + Join(issues, ", ") == "- bar, #1, #9, #142"
  {
    assert issues[1..] == ["#1", "#9", "#142"];
    Join3("#1", "#9", "#142", ", ");
  }

  /** A type whose text is hidden gets a single bullet listing its issues. */
  lemma MiscLines(def: TypeDefinition, rendered: seq<Entry>)
    requires def == TypeDefinition("misc", "Misc", false) && rendered == MiscShownWant()
    ensures EntryLines(def, rendered) == ["- bar, #1, #9, #142"]
  {
    assert IssuesIn(rendered, "") == rendered[0].issues;
    MiscBullet(rendered[0].issues);
    HiddenBulletIs(def, rendered, "- bar, #1, #9, #142");
  }

  /** The unnamed section of the basic example after regrouping. */
  function BasicUnnamedGroups(): seq<CategoryGroup> {
    [CategoryGroup("misc", [Entry("", ["142", "1", "9", "bar"])]),
     CategoryGroup("feature", [Entry("Stuff!", ["4"]), Entry("Foo added.", ["2", "72", "9"]), Entry("Fun!", ["baz"])])]
  }

  function WebGroups(): seq<CategoryGroup> {
    [CategoryGroup("bugfix", [Entry("Web fixed.", ["3"])])]
  }

  lemma UnnamedPresent(defs: seq<TypeDefinition>, groups: seq<CategoryGroup>)
    requires defs == SplitVectors.Defs() && groups == BasicUnnamedGroups()
    ensures PresentDefinitions(defs, groups) == [defs[0], defs[2]]
    ensures EntriesOf(groups, "feature") == groups[1].entries && EntriesOf(groups, "misc") == groups[0].entries
  {
    assert Categories(groups) == ["misc", "feature"];
    assert defs[1..][1..] == [defs[2]];
    assert PresentDefinitions(defs[1..][1..], groups) == [defs[2]];
    assert PresentDefinitions(defs[1..], groups) == [defs[2]];
  }

  /** The blocks of a section in which two configured types are present. */
  lemma TwoBlocks(defs: seq<TypeDefinition>, groups: seq<CategoryGroup>, u: char, d0: TypeDefinition, d1: TypeDefinition,
                  lines0: seq<string>, lines1: seq<string>)
    requires PresentDefinitions(defs, groups) == [d0, d1]
    requires EntryLines(d0, RenderEntries(None, EntriesOf(groups, d0.key))) == lines0
    requires EntryLines(d1, RenderEntries(None, EntriesOf(groups, d1.key))) == lines1
    ensures CategoryBlocks(defs, None, groups, u) == [Heading(d0.name, u) + lines0, Heading(d1.name, u) + lines1]
  {
  }

  /** The blocks of a section in which one configured type is present. */
  lemma OneBlock(defs: seq<TypeDefinition>, fmt: Option<string>, groups: seq<CategoryGroup>, u: char, d0: TypeDefinition, lines0: seq<string>)
    requires PresentDefinitions(defs, groups) == [d0]
    requires EntryLines(d0, RenderEntries(fmt, EntriesOf(groups, d0.key))) == lines0
    ensures CategoryBlocks(defs, fmt, groups, u) == [Heading(d0.name, u) + lines0]
  {
  }

  lemma UnnamedBlocks(defs: seq<TypeDefinition>, groups: seq<CategoryGroup>, u: char)
    requires defs == SplitVectors.Defs() && groups == BasicUnnamedGroups()
    ensures CategoryBlocks(defs, None, groups, u)
      == [Heading("Features", u) + ["- Fun! (baz)", "- Foo added. (#2, #9, #72)", "- Stuff! (#4)"],
          Heading("Misc", u) + ["- bar, #1, #9, #142"]]
  {
    UnnamedPresent(defs, groups);
    FeatureRendered(groups[1].entries);
    FeatureLines(defs[0], FeatureShownWant());
    MiscRendered(groups[0].entries);
    MiscLines(defs[2], MiscShownWant());
    TwoBlocks(defs, groups, u, defs[0], defs[2],
      ["- Fun! (baz)", "- Foo added. (#2, #9, #72)", "- Stuff! (#4)"], ["- bar, #1, #9, #142"]);
  }

  lemma JoinTwoBlocks(blocks: seq<seq<string>>)
    requires |blocks| == 2
    ensures JoinBlocks(blocks) == blocks[0] + ["", ""] + blocks[1]
  {
    assert JoinBlocks(blocks[1..]) == blocks[1];
  }

  lemma SectionBody(defs: seq<TypeDefinition>, fmt: Option<string>, underlines: seq<char>, section: SectionGroups,
                    typeUnderline: char, heading: seq<string>)
    requires |underlines| >= 2 && section.categories != []
    requires typeUnderline == (if section.name != "" then underlines[1] else underlines[0])
    requires heading == (if section.name != "" then Heading(section.name, underlines[0]) else [])
    ensures SectionLines(defs, fmt, underlines, section)
      == heading + JoinBlocks(CategoryBlocks(defs, fmt, section.categories, typeUnderline))
  {
  }

  lemma UnnamedSection(defs: seq<TypeDefinition>, section: SectionGroups, underlines: seq<char>, u0: char)
    requires defs == SplitVectors.Defs() && section == SectionGroups("", BasicUnnamedGroups())
    requires |underlines| >= 2 && underlines[0] == u0
    ensures SectionLines(defs, None, underlines, section) == UnnamedLines(u0)
  {
    SectionBody(defs, None, underlines, section, u0, []);
    UnnamedBlocks(defs, section.categories, u0);
    var blocks := CategoryBlocks(defs, None, section.categories, u0);
    JoinTwoBlocks(blocks);
  }

  lemma WebRendered(entries: seq<Entry>)
    requires entries == [Entry("Web fixed.", ["3"])]
    ensures RenderEntries(None, entries) == [Entry("Web fixed.", ["#3"])]
  {
    SingleIssueSorted(entries[0].issues);
    SingleEntryOrdered(entries, entries);
    NumbersShown();
    EntryShown(None, entries[0], "Web fixed.", ["#3"]);
    RenderedFrom(None, entries, entries, [Entry("Web fixed.", ["#3"])]);
  }

  lemma WebPresent(defs: seq<TypeDefinition>, groups: seq<CategoryGroup>)
    requires defs == SplitVectors.Defs() && groups == WebGroups()
    ensures PresentDefinitions(defs, groups) == [defs[1]]
    ensures EntriesOf(groups, "bugfix") == groups[0].entries
  {
    assert Categories(groups) == ["bugfix"];
    assert defs[1..][1..] == [defs[2]];
    assert PresentDefinitions(defs[1..][1..], groups) == [];
    assert PresentDefinitions(defs[1..], groups) == [defs[1]];
  }

  lemma WebBlocks(defs: seq<TypeDefinition>, groups: seq<CategoryGroup>, u: char)
    requires defs == SplitVectors.Defs() && groups == WebGroups()
    ensures CategoryBlocks(defs, None, groups, u) == [Heading("Bugfixes", u) + ["- Web fixed. (#3)"]]
  {
    WebPresent(defs, groups);
    WebRendered(groups[0].entries);
    WebLines(defs[1], [Entry("Web fixed.", ["#3"])]);
    OneBlock(defs, None, groups, u, defs[1], ["- Web fixed. (#3)"]);
  }

  lemma WebLines(def: TypeDefinition, rendered: seq<Entry>)
    requires def == TypeDefinition("bugfix", "Bugfixes", true) && rendered == [Entry("Web fixed.", ["#3"])]
    ensures EntryLines(def, rendered) == ["- Web fixed. (#3)"]
  {
    var lines := EntryLines(def, rendered);
    assert lines[0] == "- Web fixed. (#3)";
  }

  lemma WebSection(defs: seq<TypeDefinition>, section: SectionGroups, underlines: seq<char>, u0: char, u1: char)
    requires defs == SplitVectors.Defs() && section == SectionGroups("Web", WebGroups())
    requires |underlines| >= 2 && underlines[0] == u0 && underlines[1] == u1
    ensures SectionLines(defs, None, underlines, section)
      == Heading("Web", u0) + Heading("Bugfixes", u1) + ["- Web fixed. (#3)"]
  {
    SectionBody(defs, None, underlines, section, u1, Heading("Web", u0));
    WebBlocks(defs, section.categories, u1);
  }

  function BasicSections(): seq<SectionGroups> {
    [SectionGroups("", BasicUnnamedGroups()), SectionGroups("Names", []), SectionGroups("Web", WebGroups())]
  }

  function UnnamedLines(u0: char): seq<string> {
    (Heading("Features", u0) + ["- Fun! (baz)", "- Foo added. (#2, #9, #72)", "- Stuff! (#4)"])
    + ["", ""] + (Heading("Misc", u0) + ["- bar, #1, #9, #142"])
  }

  function BasicLines(u0: char, u1: char): seq<string> {
    Heading("MyProject 1.0 (never)", '=')
    + (UnnamedLines(u0) + ["", ""] + (Heading("Names", u0) + [NoChanges])
       + ["", ""] + (Heading("Web", u0) + Heading("Bugfixes", u1) + ["- Web fixed. (#3)"]))
  }

  lemma JoinThreeBlocks(blocks: seq<seq<string>>)
    requires |blocks| == 3
    ensures JoinBlocks(blocks) == blocks[0] + ["", ""] + blocks[1] + ["", ""] + blocks[2]
  {
    assert blocks[1..][1..] == [blocks[2]];
    assert JoinBlocks(blocks[1..]) == blocks[1] + ["", ""] + blocks[2];
    assert JoinBlocks(blocks) == blocks[0] + ["", ""] + (blocks[1] + ["", ""] + blocks[2]);
  }

  lemma RenderedAs(defs: seq<TypeDefinition>, fmt: Option<string>, sections: seq<SectionGroups>, underlines: seq<char>,
                   top: char, name: string, version: string, date: string, body: seq<string>)
    requires |underlines| >= 2
    requires JoinBlocks(seq(|sections|, s requires 0 <= s < |sections| => SectionLines(defs, fmt, underlines, sections[s]))) == body
    ensures RenderFragments(defs, fmt, sections, underlines, top, name, version, date, true)
      == Unlines(Heading(TitleText(name, version, date), top) + body)
  {
  }

  lemma SectionsJoined(defs: seq<TypeDefinition>, sections: seq<SectionGroups>, underlines: seq<char>,
                       l0: seq<string>, l1: seq<string>, l2: seq<string>)
    requires |underlines| >= 2 && |sections| == 3
    requires SectionLines(defs, None, underlines, sections[0]) == l0
    requires SectionLines(defs, None, underlines, sections[1]) == l1
    requires SectionLines(defs, None, underlines, sections[2]) == l2
    ensures JoinBlocks(seq(|sections|, s requires 0 <= s < |sections| => SectionLines(defs, None, underlines, sections[s])))
      == l0 + ["", ""] + l1 + ["", ""] + l2
  {
    var blocks := seq(|sections|, s requires 0 <= s < |sections| => SectionLines(defs, None, underlines, sections[s]));
    assert |blocks| == 3 && blocks[0] == l0 && blocks[1] == l1 && blocks[2] == l2;
    JoinThreeBlocks(blocks);
  }

  lemma NamesSection(defs: seq<TypeDefinition>, section: SectionGroups, underlines: seq<char>, u0: char)
    requires section == SectionGroups("Names", []) && |underlines| >= 2 && underlines[0] == u0
    ensures SectionLines(defs, None, underlines, section) == Heading("Names", u0) + [NoChanges]
  {
  }

  lemma TitleOfBasic(name: string, version: string, date: string)
    requires name == "MyProject" && version == "1.0" && date == "never"
    ensures TitleText(name, version, date) == "MyProject 1.0 (never)"
  {
  }

  lemma BasicRendered(defs: seq<TypeDefinition>, sections: seq<SectionGroups>, u0: char, u1: char)
    requires defs == SplitVectors.Defs() && sections == BasicSections()
    ensures RenderFragments(defs, None, sections, [u0, u1], '=', "MyProject", "1.0", "never", true) == Unlines(BasicLines(u0, u1))
  {
    var l0 := UnnamedLines(u0);
    var l1 := Heading("Names", u0) + [NoChanges];
    var l2 := Heading("Web", u0) + Heading("Bugfixes", u1) + ["- Web fixed. (#3)"];
    var underlines := [u0, u1];
    UnnamedSection(defs, sections[0], underlines, u0);
    NamesSection(defs, sections[1], underlines, u0);
    WebSection(defs, sections[2], underlines, u0, u1);
    SectionsJoined(defs, sections, underlines, l0, l1, l2);
    var body := l0 + ["", ""] + l1 + ["", ""] + l2;
    RenderedAs(defs, None, sections, underlines, '=', "MyProject", "1.0", "never", body);
    TitleOfBasic("MyProject", "1.0", "never");
    assert BasicLines(u0, u1) == Heading("MyProject 1.0 (never)", '=') + body;
  }

  /** A heading whose underline is spelled out. */
  lemma HeadingIs(text: string, c: char, under: string)
    requires |under| == |text| && forall i :: 0 <= i < |under| ==> under[i] == c
    ensures Heading(text, c) == [text, under, ""]
  {
    assert Repeat(c, |text|) == under;
  }

  /** The expected output of the basic vector, part by part. */
  function TitleExpected(): seq<string> {
    ["MyProject 1.0 (never)", "=====================", ""]
  }

  function UnnamedExpected(): seq<string> {
    ["Features", "--------", "",
     "- Fun! (baz)", "- Foo added. (#2, #9, #72)", "- Stuff! (#4)", "", "",
     "Misc", "----", "",
     "- bar, #1, #9, #142"]
  }

  function NamesExpected(): seq<string> {
    ["Names", "-----", "",
     "No significant changes."]
  }

  function WebExpected(): seq<string> {
    ["Web", "---", "",
     "Bugfixes", "~~~~~~~~", "",
     "- Web fixed. (#3)"]
  }

  /** The sections are separated by two blank lines. */
  function BasicExpected(): seq<string> {
    TitleExpected() + (UnnamedExpected() + ["", ""] + NamesExpected() + ["", ""] + WebExpected())
  }

  lemma UnnamedLinesAre()
    ensures UnnamedLines('-') == UnnamedExpected()
  {
    HeadingIs("Features", '-', "--------");
    HeadingIs("Misc", '-', "----");
  }

  lemma NamesLinesAre()
    ensures Heading("Names", '-') + [NoChanges] == NamesExpected()
  {
    HeadingIs("Names", '-', "-----");
  }

  lemma WebLinesAre()
    ensures Heading("Web", '-') + Heading("Bugfixes", '~') + ["- Web fixed. (#3)"] == WebExpected()
  {
    HeadingIs("Web", '-', "---");
    HeadingIs("Bugfixes", '~', "~~~~~~~~");
  }

  lemma TitleLinesAre()
    ensures Heading("MyProject 1.0 (never)", '=') == TitleExpected()
  {
    HeadingIs("MyProject 1.0 (never)", '=', "=====================");
  }

  /** The basic vector, written out line by line with its underlines. */
  lemma BasicLinesAre(lines: seq<string>)
    requires lines == BasicLines('-', '~')
    ensures lines == BasicExpected()
  {
    TitleLinesAre();
    UnnamedLinesAre();
    NamesLinesAre();
    WebLinesAre();
  }

  // ---------------------------------------------------------------------------
  // `test_basic` end to end: regrouping, then rendering with two sets of underlines

  /** The fragments of `test_basic`, section by section. */
  function BasicInput(): seq<SectionFragments> {
    [SectionFragments("", SplitVectors.Basic("Stuff!", "Foo added.", "Fun!")),
     SectionFragments("Names", []),
     SectionFragments("Web", [SplitVectors.Frag("3", "bugfix", "Web fixed.")])]
  }

  /** Every fragment of `test_basic` has a configured type. */
  predicate BasicInputDefined() {
    forall s :: 0 <= s < |BasicInput()| ==> AllDefined(SplitVectors.Defs(), BasicInput()[s].fragments)
  }

  /** Three sections regrouped one by one. */
  lemma SplitThree(defs: seq<TypeDefinition>, input: seq<SectionFragments>, out: seq<SectionGroups>)
    requires |input| == 3 && |out| == 3
    requires AllDefined(defs, input[0].fragments) && AllDefined(defs, input[1].fragments) && AllDefined(defs, input[2].fragments)
    requires out[0] == SectionGroups(input[0].name, SplitSection(defs, input[0].fragments))
    requires out[1] == SectionGroups(input[1].name, SplitSection(defs, input[1].fragments))
    requires out[2] == SectionGroups(input[2].name, SplitSection(defs, input[2].fragments))
    ensures forall s :: 0 <= s < |input| ==> AllDefined(defs, input[s].fragments)
    ensures SplitFragments(defs, input) == out
  {
    var r := SplitFragments(defs, input);
    assert r[0] == out[0] && r[1] == out[1] && r[2] == out[2];
  }

  /** `split_fragments` on the fragments of `test_basic`. */
  lemma TestBasicSplit()
    ensures BasicInputDefined()
    ensures SplitFragments(SplitVectors.Defs(), BasicInput()) == BasicSections()
  {
    var defs, input, out := SplitVectors.Defs(), BasicInput(), BasicSections();
    SplitVectors.BasicStrings();
    SplitVectors.SplitBasicSection("Stuff!", "Foo added.", "Fun!");
    SplitVectors.SplitBasicWeb("Web fixed.");
    assert SplitSection(defs, input[1].fragments) == [];
    SplitThree(defs, input, out);
  }

  /** `test_basic` with the underlines `-` and `~`: the whole document. */
  lemma TestBasic()
    ensures BasicInputDefined()
    ensures RenderFragments(SplitVectors.Defs(), None, SplitFragments(SplitVectors.Defs(), BasicInput()),
                            ['-', '~'], '=', "MyProject", "1.0", "never", true)
            == Unlines(BasicExpected())
  {
    TestBasicSplit();
    BasicRendered(SplitVectors.Defs(), BasicSections(), '-', '~');
    BasicLinesAre(BasicLines('-', '~'));
  }

  function WeirdUnnamedExpected(): seq<string> {
    ["Features", "********", "",
     "- Fun! (baz)", "- Foo added. (#2, #9, #72)", "- Stuff! (#4)", "", "",
     "Misc", "****", "",
     "- bar, #1, #9, #142"]
  }

  function WeirdNamesExpected(): seq<string> {
    ["Names", "*****", "",
     "No significant changes."]
  }

  function WeirdWebExpected(): seq<string> {
    ["Web", "***", "",
     "Bugfixes", "^^^^^^^^", "",
     "- Web fixed. (#3)"]
  }

  function WeirdExpected(): seq<string> {
    TitleExpected() + (WeirdUnnamedExpected() + ["", ""] + WeirdNamesExpected() + ["", ""] + WeirdWebExpected())
  }

  lemma WeirdUnnamedLinesAre()
    ensures UnnamedLines('*') == WeirdUnnamedExpected()
  {
    HeadingIs("Features", '*', "********");
    HeadingIs("Misc", '*', "****");
  }

  lemma WeirdNamesLinesAre()
    ensures Heading("Names", '*') + [NoChanges] == WeirdNamesExpected()
  {
    HeadingIs("Names", '*', "*****");
  }

  lemma WeirdWebLinesAre()
    ensures Heading("Web", '*') + Heading("Bugfixes", '^') + ["- Web fixed. (#3)"] == WeirdWebExpected()
  {
    HeadingIs("Web", '*', "***");
    HeadingIs("Bugfixes", '^', "^^^^^^^^");
  }

  lemma WeirdLinesAre(lines: seq<string>)
    requires lines == BasicLines('*', '^')
    ensures lines == WeirdExpected()
  {
    TitleLinesAre();
    WeirdUnnamedLinesAre();
    WeirdNamesLinesAre();
    WeirdWebLinesAre();
  }

  /** `test_basic` again with the underlines `*` and `^`: only the underlines change. */
  lemma TestBasicWeirdUnderlines()
    ensures BasicInputDefined()
    ensures RenderFragments(SplitVectors.Defs(), None, SplitFragments(SplitVectors.Defs(), BasicInput()),
                            ['*', '^'], '=', "MyProject", "1.0", "never", true)
            == Unlines(WeirdExpected())
  {
    TestBasicSplit();
    BasicRendered(SplitVectors.Defs(), BasicSections(), '*', '^');
    WeirdLinesAre(BasicLines('*', '^'));
  }

  // ---------------------------------------------------------------------------
  // `test_issue_format`: issues sorted before the format is applied

  function MiscOnly(): seq<TypeDefinition> {
    [TypeDefinition("misc", "Misc", false)]
  }

  function IssueFormatInput(): seq<SectionFragments> {
    [SectionFragments("", SplitVectors.HiddenFrags())]
  }

  predicate IssueFormatInputDefined() {
    forall s :: 0 <= s < |IssueFormatInput()| ==> AllDefined(MiscOnly(), IssueFormatInput()[s].fragments)
  }

  function IssueFormatSections(): seq<SectionGroups> {
    [SectionGroups("", [SplitVectors.Hidden(["142", "1", "9", "bar"])])]
  }

  lemma IssueFormatSplit()
    ensures IssueFormatInputDefined()
    ensures SplitFragments(MiscOnly(), IssueFormatInput()) == IssueFormatSections()
  {
    var defs := MiscOnly();
    assert SplitVectors.HidesMisc(defs);
    SplitVectors.HiddenRun(defs, "142", "1", "9", "bar");
    var r := SplitFragments(defs, IssueFormatInput());
    assert r[0] == IssueFormatSections()[0];
  }

  /** `xx{issue}` puts `xx` in front of every issue. */
  lemma XxShown(issue: string)
    ensures RenderIssue(Some("xx{issue}"), issue) == "xx" + issue
  {
    assert "xx{issue}" == "xx" + Placeholder("issue") + "";
    IssueFormatWraps("xx", "", issue);
    assert "xx" + issue + "" == "xx" + issue;
  }

  function XxShownWant(): seq<Entry> {
    [Entry("", ["xxbar", "xx1", "xx9", "xx142"])]
  }

  lemma XxShownEach(fmt: Option<string>, ordered: seq<Entry>, shown: seq<Entry>)
    requires forall i :: RenderIssue(fmt, i) == "xx" + i
    requires ordered == MiscWant() && shown == XxShownWant()
    ensures |shown| == |ordered| && forall k :: 0 <= k < |ordered| ==> RenderEntry(fmt, ordered[k]) == shown[k]
  {
    var s := shown[0].issues;
    assert RenderIssue(fmt, ordered[0].issues[0]) == s[0];
    assert RenderIssue(fmt, ordered[0].issues[1]) == s[1];
    assert RenderIssue(fmt, ordered[0].issues[2]) == s[2];
    assert RenderIssue(fmt, ordered[0].issues[3]) == s[3];
    EntryShown(fmt, ordered[0], "", s);
  }

  /** Rendering with a format that puts `xx` in front of every issue, after sorting. */
  lemma XxRendered(fmt: Option<string>, entries: seq<Entry>)
    requires forall i :: RenderIssue(fmt, i) == "xx" + i
    requires entries == [Entry("", ["142", "1", "9", "bar"])]
    ensures RenderEntries(fmt, entries) == XxShownWant()
  {
    var ordered, shown := MiscWant(), XxShownWant();
    MiscOrdered(entries, ordered);
    XxShownEach(fmt, ordered, shown);
    RenderedFrom(fmt, entries, ordered, shown);
  }

  lemma XxLines(def: TypeDefinition, rendered: seq<Entry>)
    requires def == TypeDefinition("misc", "Misc", false) && rendered == XxShownWant()
    ensures EntryLines(def, rendered) == ["- xxbar, xx1, xx9, xx142"]
  {
    var issues := rendered[0].issues;
    assert IssuesIn(rendered, "") == issues;
    assert issues[1..] == ["xx1", "xx9", "xx142"];
    Join3("xx1", "xx9", "xx142", ", ");
    HiddenBulletIs(def, rendered, "- xxbar, xx1, xx9, xx142");
  }

  lemma IssueFormatSection(defs: seq<TypeDefinition>, fmt: Option<string>, section: SectionGroups, underlines: seq<char>)
    requires forall i :: RenderIssue(fmt, i) == "xx" + i
    requires defs == MiscOnly() && section == IssueFormatSections()[0] && underlines == ['-', '~']
    ensures SectionLines(defs, fmt, underlines, section) == Heading("Misc", '-') + ["- xxbar, xx1, xx9, xx142"]
  {
    var groups := section.categories;
    assert Categories(groups) == ["misc"];
    assert PresentDefinitions(defs, groups) == [defs[0]];
    assert EntriesOf(groups, "misc") == groups[0].entries;
    XxRendered(fmt, groups[0].entries);
    XxLines(defs[0], XxShownWant());
    OneBlock(defs, fmt, groups, '-', defs[0], ["- xxbar, xx1, xx9, xx142"]);
    SectionBody(defs, fmt, underlines, section, '-', []);
    var blocks := CategoryBlocks(defs, fmt, groups, '-');
    assert JoinBlocks(blocks) == blocks[0];
  }

  function IssueFormatExpected(): seq<string> {
    TitleExpected() + ["Misc", "----", "", "- xxbar, xx1, xx9, xx142"]
  }

  lemma IssueFormatLinesAre()
    ensures Heading("MyProject 1.0 (never)", '=') + (Heading("Misc", '-') + ["- xxbar, xx1, xx9, xx142"]) == IssueFormatExpected()
  {
    TitleLinesAre();
    HeadingIs("Misc", '-', "----");
  }

  /** A single section is the whole body. */
  lemma SectionAlone(defs: seq<TypeDefinition>, fmt: Option<string>, sections: seq<SectionGroups>, underlines: seq<char>, l0: seq<string>)
    requires |underlines| >= 2 && |sections| == 1
    requires SectionLines(defs, fmt, underlines, sections[0]) == l0
    ensures JoinBlocks(seq(|sections|, s requires 0 <= s < |sections| => SectionLines(defs, fmt, underlines, sections[s]))) == l0
  {
    var blocks := seq(|sections|, s requires 0 <= s < |sections| => SectionLines(defs, fmt, underlines, sections[s]));
    assert |blocks| == 1 && blocks[0] == l0;
  }

  lemma IssueFormatRendered(defs: seq<TypeDefinition>, fmt: Option<string>, sections: seq<SectionGroups>)
    requires forall i :: RenderIssue(fmt, i) == "xx" + i
    requires defs == MiscOnly() && sections == IssueFormatSections()
    ensures RenderFragments(defs, fmt, sections, ['-', '~'], '=', "MyProject", "1.0", "never", true)
            == Unlines(IssueFormatExpected())
  {
    var underlines := ['-', '~'];
    var body := Heading("Misc", '-') + ["- xxbar, xx1, xx9, xx142"];
    IssueFormatSection(defs, fmt, sections[0], underlines);
    SectionAlone(defs, fmt, sections, underlines, body);
    RenderedAs(defs, fmt, sections, underlines, '=', "MyProject", "1.0", "never", body);
    TitleOfBasic("MyProject", "1.0", "never");
    IssueFormatLinesAre();
  }

  /** `test_issue_format`: the whole document. */
  lemma TestIssueFormat()
    ensures IssueFormatInputDefined()
    ensures RenderFragments(MiscOnly(), Some("xx{issue}"), SplitFragments(MiscOnly(), IssueFormatInput()),
                            ['-', '~'], '=', "MyProject", "1.0", "never", true)
            == Unlines(IssueFormatExpected())
  {
    IssueFormatSplit();
    var fmt := Some("xx{issue}");
    forall i ensures RenderIssue(fmt, i) == "xx" + i {
      XxShown(i);
    }
    IssueFormatRendered(MiscOnly(), fmt, IssueFormatSections());
  }
}
