/**
 * `split_fragments`: regrouping the fragments of each section by type, then by
 * their (stripped) text, collecting the issues of fragments that say the same
 * thing. Python dictionaries keep insertion order, so every level is a
 * sequence kept in order of first appearance.
 */
module Grouping {
  import opened Wrappers
  import opened Text

  /** A fragment's key within its section: issue, type and counter. */
  datatype FragmentKey = FragmentKey(issue: string, category: string, counter: int)

  datatype Fragment = Fragment(key: FragmentKey, content: string)

  /** One section of the input: its name (`""` for the unnamed one) and its fragments in order. */
  datatype SectionFragments = SectionFragments(name: string, fragments: seq<Fragment>)

  /** A configured fragment type: its key, display name, and whether its text is shown. */
  datatype TypeDefinition = TypeDefinition(key: string, name: string, showContent: bool)

  /** One changelog entry: a text and the issues of every fragment that had that text. */
  datatype Entry = Entry(text: string, issues: seq<string>)

  /** The entries of one type within a section. */
  datatype CategoryGroup = CategoryGroup(category: string, entries: seq<Entry>)

  /** The grouped output for one section. */
  datatype SectionGroups = SectionGroups(name: string, categories: seq<CategoryGroup>)

  // ---------------------------------------------------------------------------
  // Type definitions

  /** The definition of `category`, the first one if the key were repeated. */
  function FindDefinition(defs: seq<TypeDefinition>, category: string): Option<TypeDefinition> {
    if defs == [] then None
    else if defs[0].key == category then Some(defs[0])
    else FindDefinition(defs[1..], category)
  }

  /** A type is defined exactly when some definition has its key, and the one found is the first such. */
  lemma {:induction false} FindDefinitionFirst(defs: seq<TypeDefinition>, category: string)
    ensures Defined(defs, category) <==> exists k :: 0 <= k < |defs| && defs[k].key == category
    ensures Defined(defs, category) ==> exists k ::
      && 0 <= k < |defs| && FindDefinition(defs, category) == Some(defs[k])
      && defs[k].key == category
      && forall j :: 0 <= j < k ==> defs[j].key != category
  {
    if defs != [] && defs[0].key != category {
      FindDefinitionFirst(defs[1..], category);
      if Defined(defs, category) {
        var k :| && 0 <= k < |defs[1..]| && FindDefinition(defs[1..], category) == Some(defs[1..][k])
                 && defs[1..][k].key == category
                 && forall j :: 0 <= j < k ==> defs[1..][j].key != category;
        assert defs[k + 1] == defs[1..][k];
        assert forall j :: 1 <= j < k + 1 ==> defs[j] == defs[1..][j - 1];
      }
      if exists k :: 0 <= k < |defs| && defs[k].key == category {
        var k :| 0 <= k < |defs| && defs[k].key == category;
        assert defs[1..][k - 1] == defs[k];
      }
    }
  }

  predicate Defined(defs: seq<TypeDefinition>, category: string) {
    FindDefinition(defs, category).Some?
  }

  /** Every fragment has a configured type (the fragment finder only yields those). */
  predicate AllDefined(defs: seq<TypeDefinition>, frags: seq<Fragment>) {
    forall i :: 0 <= i < |frags| ==> Defined(defs, frags[i].key.category)
  }

  function ShowsContent(defs: seq<TypeDefinition>, category: string): bool
    requires Defined(defs, category)
  {
    FindDefinition(defs, category).value.showContent
  }

  /** The text a fragment contributes: its stripped content, or `""` for a type whose content is not shown. */
  function EntryText(defs: seq<TypeDefinition>, frag: Fragment): (t: string)
    requires Defined(defs, frag.key.category)
    ensures IsStripped(t)
  {
    if ShowsContent(defs, frag.key.category) then Strip(frag.content) else ""
  }

  // ---------------------------------------------------------------------------
  // Reading the grouped structure

  /** The issues listed under `text`, or none if there is no such entry. */
  function IssuesIn(entries: seq<Entry>, text: string): seq<string> {
    if entries == [] then []
    else if entries[0].text == text then entries[0].issues
    else IssuesIn(entries[1..], text)
  }

  /** The entries of `category`, or none if the type does not appear. */
  function EntriesOf(groups: seq<CategoryGroup>, category: string): seq<Entry> {
    if groups == [] then []
    else if groups[0].category == category then groups[0].entries
    else EntriesOf(groups[1..], category)
  }

  function Issues(groups: seq<CategoryGroup>, category: string, text: string): seq<string> {
    IssuesIn(EntriesOf(groups, category), text)
  }

  /** The types present, in order of first appearance. */
  function Categories(groups: seq<CategoryGroup>): (r: seq<string>)
    ensures |r| == |groups| && forall k :: 0 <= k < |r| ==> r[k] == groups[k].category
  {
    seq(|groups|, k requires 0 <= k < |groups| => groups[k].category)
  }

  /** The texts of the entries, in order. */
  function Texts(entries: seq<Entry>): (r: seq<string>)
    ensures |r| == |entries| && forall k :: 0 <= k < |r| ==> r[k] == entries[k].text
  {
    if entries == [] then [] else [entries[0].text] + Texts(entries[1..])
  }

  /** Dictionary keys: no string occurs twice. */
  predicate NoDuplicates(keys: seq<string>) {
    forall i, j :: 0 <= i < j < |keys| ==> keys[i] != keys[j]
  }

  /** Texts are distinct keys, every entry has an issue, and every text is stripped. */
  predicate WellFormedEntries(entries: seq<Entry>) {
    && NoDuplicates(Texts(entries))
    && (forall i :: 0 <= i < |entries| ==> entries[i].issues != [] && IsStripped(entries[i].text))
  }

  /** Every type listed has well-formed, non-empty entries. */
  predicate FilledGroups(groups: seq<CategoryGroup>) {
    groups == [] || (groups[0].entries != [] && WellFormedEntries(groups[0].entries) && FilledGroups(groups[1..]))
  }

  /** Types are distinct keys and each present type has well-formed, non-empty entries. */
  predicate WellFormedGroups(groups: seq<CategoryGroup>) {
    NoDuplicates(Categories(groups)) && FilledGroups(groups)
  }

  /** Adding a key only when it is missing keeps the keys distinct. */
  lemma NoDuplicatesAdd(keys: seq<string>, key: string)
    requires NoDuplicates(keys)
    ensures NoDuplicates(keys + (if key in keys then [] else [key]))
  {
    if key !in keys {
      var r := keys + [key];
      forall i, j | 0 <= i < j < |r| ensures r[i] != r[j] {
        if j == |keys| {
          assert r[i] == keys[i];
        }
      }
    }
  }

  // ---------------------------------------------------------------------------
  // The regrouping

  /** `texts[text] = texts[text] + [issue]` if present, else a new entry at the end. */
  function AddEntry(entries: seq<Entry>, text: string, issue: string): (r: seq<Entry>)
    ensures |r| == |entries| || |r| == |entries| + 1
  {
    if entries == [] then [Entry(text, [issue])]
    else if entries[0].text == text then [Entry(text, entries[0].issues + [issue])] + entries[1..]
    else [entries[0]] + AddEntry(entries[1..], text, issue)
  }

  /** `section.setdefault(category, {})` followed by `AddEntry` within that type. */
  function AddToCategory(groups: seq<CategoryGroup>, category: string, text: string, issue: string): (r: seq<CategoryGroup>)
  {
    if groups == [] then [CategoryGroup(category, AddEntry([], text, issue))]
    else if groups[0].category == category then
      [CategoryGroup(category, AddEntry(groups[0].entries, text, issue))] + groups[1..]
    else [groups[0]] + AddToCategory(groups[1..], category, text, issue)
  }

  /** Adding an entry opens at most one new type and leaves at least one. */
  lemma {:induction false} AddToCategoryLength(groups: seq<CategoryGroup>, category: string, text: string, issue: string)
    ensures var r := AddToCategory(groups, category, text, issue);
      r != [] && (|r| == |groups| || |r| == |groups| + 1)
  {
    if groups != [] && groups[0].category != category {
      AddToCategoryLength(groups[1..], category, text, issue);
    }
  }

  /**
   * One section's fragments, folded in the order given. Every type in the
   * result comes from at least one fragment, and only a section without
   * fragments has no types.
   */
  function SplitSection(defs: seq<TypeDefinition>, frags: seq<Fragment>): (r: seq<CategoryGroup>)
    requires AllDefined(defs, frags)
    ensures |r| <= |frags|
    ensures |frags| > 0 ==> |r| > 0
  {
    if frags == [] then []
    else
      var last := frags[|frags| - 1];
      var earlier := SplitSection(defs, frags[..|frags| - 1]);
      AddToCategoryLength(earlier, last.key.category, EntryText(defs, last), last.key.issue);
      AddToCategory(earlier, last.key.category, EntryText(defs, last), last.key.issue)
  }

  /**
   * The regrouped section is a pair of dictionaries: each type occurs once,
   * each text occurs once within its type, no entry is without issues, and
   * every text is stripped.
   */
  lemma {:induction false} SplitSectionWellFormed(defs: seq<TypeDefinition>, frags: seq<Fragment>)
    requires AllDefined(defs, frags)
    ensures WellFormedGroups(SplitSection(defs, frags))
  {
    if frags != [] {
      var last := frags[|frags| - 1];
      SplitSectionWellFormed(defs, frags[..|frags| - 1]);
      AddToCategoryWellFormed(SplitSection(defs, frags[..|frags| - 1]), last.key.category, EntryText(defs, last), last.key.issue);
    }
  }

  /** `split_fragments`: every section regrouped on its own, in the order the sections were given. */
  function SplitFragments(defs: seq<TypeDefinition>, sections: seq<SectionFragments>): (r: seq<SectionGroups>)
    requires forall s :: 0 <= s < |sections| ==> AllDefined(defs, sections[s].fragments)
    ensures |r| == |sections|
    ensures forall s :: 0 <= s < |r| ==> r[s].name == sections[s].name
  {
    seq(|sections|, s requires 0 <= s < |sections| =>
      SectionGroups(sections[s].name, SplitSection(defs, sections[s].fragments)))
  }

  /** A section's regrouping depends on that section's fragments alone, not on the other sections. */
  lemma SplitFragmentsIndependent(defs: seq<TypeDefinition>, a: seq<SectionFragments>, b: seq<SectionFragments>, s: int)
    requires forall t :: 0 <= t < |a| ==> AllDefined(defs, a[t].fragments)
    requires forall t :: 0 <= t < |b| ==> AllDefined(defs, b[t].fragments)
    requires 0 <= s < |a| && s < |b| && a[s] == b[s]
    ensures SplitFragments(defs, a)[s] == SplitFragments(defs, b)[s]
  {
  }

  /** Every regrouped section is well formed in the sense of `SplitSectionWellFormed`. */
  lemma SplitFragmentsWellFormed(defs: seq<TypeDefinition>, sections: seq<SectionFragments>)
    requires forall s :: 0 <= s < |sections| ==> AllDefined(defs, sections[s].fragments)
    ensures forall s :: 0 <= s < |sections| ==> WellFormedGroups(SplitFragments(defs, sections)[s].categories)
  {
    forall s | 0 <= s < |sections|
      ensures WellFormedGroups(SplitFragments(defs, sections)[s].categories)
    {
      SplitSectionWellFormed(defs, sections[s].fragments);
    }
  }

  /** Regrouping one more fragment adds it to what the earlier ones produced. */
  lemma SplitSectionSnoc(defs: seq<TypeDefinition>, frags: seq<Fragment>, frag: Fragment)
    requires AllDefined(defs, frags) && Defined(defs, frag.key.category)
    ensures AllDefined(defs, frags + [frag])
    ensures SplitSection(defs, frags + [frag])
      == AddToCategory(SplitSection(defs, frags), frag.key.category, EntryText(defs, frag), frag.key.issue)
  {
    assert (frags + [frag])[..|frags|] == frags;
    assert forall i :: 0 <= i < |frags| ==> frags[i] == (frags + [frag])[i];
  }

  // ---------------------------------------------------------------------------
  // What the regrouping computes

  /** The issues of the fragments of `category` whose text is `text`, in input order. */
  function IssuesOf(defs: seq<TypeDefinition>, frags: seq<Fragment>, category: string, text: string): seq<string>
    requires AllDefined(defs, frags)
  {
    if frags == [] then []
    else
      var last := frags[|frags| - 1];
      IssuesOf(defs, frags[..|frags| - 1], category, text)
      + (if last.key.category == category && EntryText(defs, last) == text then [last.key.issue] else [])
  }

  lemma {:induction false} AddEntryIssues(entries: seq<Entry>, text: string, issue: string, t: string)
    ensures IssuesIn(AddEntry(entries, text, issue), t) == IssuesIn(entries, t) + (if t == text then [issue] else [])
  {
    if entries != [] && entries[0].text != text {
      AddEntryIssues(entries[1..], text, issue, t);
    }
  }

  /** Adding to an entry keeps the texts in place and appends a new one at the end. */
  lemma {:induction false} AddEntryTexts(entries: seq<Entry>, text: string, issue: string)
    ensures Texts(AddEntry(entries, text, issue)) == Texts(entries) + (if text in Texts(entries) then [] else [text])
  {
    var r := AddEntry(entries, text, issue);
    if entries == [] {
    } else if entries[0].text == text {
      assert r[1..] == entries[1..];
    } else {
      AddEntryTexts(entries[1..], text, issue);
      assert r[1..] == AddEntry(entries[1..], text, issue);
    }
  }

  /** Every entry after an addition has an issue and a stripped text. */
  lemma {:induction false} AddEntryFilled(entries: seq<Entry>, text: string, issue: string)
    requires forall i :: 0 <= i < |entries| ==> entries[i].issues != [] && IsStripped(entries[i].text)
    requires IsStripped(text)
    ensures var r := AddEntry(entries, text, issue);
      forall i :: 0 <= i < |r| ==> r[i].issues != [] && IsStripped(r[i].text)
  {
    if entries != [] && entries[0].text != text {
      AddEntryFilled(entries[1..], text, issue);
      var r := AddEntry(entries, text, issue);
      assert forall i :: 1 <= i < |r| ==> r[i] == AddEntry(entries[1..], text, issue)[i - 1];
    }
  }

  lemma AddEntryWellFormed(entries: seq<Entry>, text: string, issue: string)
    requires WellFormedEntries(entries) && IsStripped(text)
    ensures WellFormedEntries(AddEntry(entries, text, issue))
  {
    AddEntryTexts(entries, text, issue);
    NoDuplicatesAdd(Texts(entries), text);
    AddEntryFilled(entries, text, issue);
  }

  lemma {:induction false} AddToCategoryIssues(groups: seq<CategoryGroup>, category: string, text: string, issue: string, c: string, t: string)
    ensures Issues(AddToCategory(groups, category, text, issue), c, t)
         == Issues(groups, c, t) + (if c == category && t == text then [issue] else [])
  {
    var r := AddToCategory(groups, category, text, issue);
    if groups == [] {
      AddEntryIssues([], text, issue, t);
      assert r[1..] == [];
    } else if groups[0].category == category {
      AddEntryIssues(groups[0].entries, text, issue, t);
      assert r[1..] == groups[1..];
    } else {
      AddToCategoryIssues(groups[1..], category, text, issue, c, t);
      assert r[1..] == AddToCategory(groups[1..], category, text, issue);
    }
  }

  /** Adding to a type keeps the types in place and appends a new one at the end. */
  lemma {:induction false} AddToCategoryCategories(groups: seq<CategoryGroup>, category: string, text: string, issue: string)
    ensures Categories(AddToCategory(groups, category, text, issue))
         == Categories(groups) + (if category in Categories(groups) then [] else [category])
  {
    var r := AddToCategory(groups, category, text, issue);
    if groups == [] {
    } else if groups[0].category == category {
      assert category in Categories(groups) by { assert Categories(groups)[0] == category; }
      assert Categories(r) == Categories(groups);
    } else {
      AddToCategoryCategories(groups[1..], category, text, issue);
      assert r == [groups[0]] + AddToCategory(groups[1..], category, text, issue);
      assert Categories(groups) == [groups[0].category] + Categories(groups[1..]);
      assert Categories(r) == [groups[0].category] + Categories(AddToCategory(groups[1..], category, text, issue));
    }
  }

  lemma {:induction false} AddToCategoryFilled(groups: seq<CategoryGroup>, category: string, text: string, issue: string)
    requires FilledGroups(groups) && IsStripped(text)
    ensures FilledGroups(AddToCategory(groups, category, text, issue))
  {
    var r := AddToCategory(groups, category, text, issue);
    if groups == [] {
      AddEntryWellFormed([], text, issue);
      assert r[1..] == [];
    } else if groups[0].category == category {
      AddEntryWellFormed(groups[0].entries, text, issue);
      assert r[1..] == groups[1..];
    } else {
      AddToCategoryFilled(groups[1..], category, text, issue);
      assert r[1..] == AddToCategory(groups[1..], category, text, issue);
    }
  }

  lemma AddToCategoryWellFormed(groups: seq<CategoryGroup>, category: string, text: string, issue: string)
    requires WellFormedGroups(groups) && IsStripped(text)
    ensures WellFormedGroups(AddToCategory(groups, category, text, issue))
  {
    AddToCategoryCategories(groups, category, text, issue);
    NoDuplicatesAdd(Categories(groups), category);
    AddToCategoryFilled(groups, category, text, issue);
  }

  /**
   * Grouping is faithful: under every type and text, the entry lists exactly
   * the issues of the fragments of that type with that text, in the order the
   * fragments were given, duplicates merged into one entry and nothing sorted.
   */
  lemma {:induction false} SplitSectionIssues(defs: seq<TypeDefinition>, frags: seq<Fragment>, category: string, text: string)
    requires AllDefined(defs, frags)
    ensures Issues(SplitSection(defs, frags), category, text) == IssuesOf(defs, frags, category, text)
  {
    if frags != [] {
      var last := frags[|frags| - 1];
      SplitSectionIssues(defs, frags[..|frags| - 1], category, text);
      AddToCategoryIssues(SplitSection(defs, frags[..|frags| - 1]), last.key.category, EntryText(defs, last), last.key.issue, category, text);
    }
  }

  /** The types that occur among the fragments, in order of first occurrence. */
  function CategoriesOf(frags: seq<Fragment>): seq<string> {
    if frags == [] then []
    else
      var init := CategoriesOf(frags[..|frags| - 1]);
      var c := frags[|frags| - 1].key.category;
      init + (if c in init then [] else [c])
  }

  lemma {:induction false} CategoriesOfMembers(frags: seq<Fragment>, category: string)
    ensures category in CategoriesOf(frags) <==> exists i :: 0 <= i < |frags| && frags[i].key.category == category
  {
    if frags != [] {
      var init := frags[..|frags| - 1];
      CategoriesOfMembers(init, category);
      if exists i :: 0 <= i < |init| && init[i].key.category == category {
        var i :| 0 <= i < |init| && init[i].key.category == category;
        assert frags[i].key.category == category;
      }
      if exists i :: 0 <= i < |frags| && frags[i].key.category == category {
        var i :| 0 <= i < |frags| && frags[i].key.category == category;
        if i < |init| { assert init[i].key.category == category; }
      }
    }
  }

  /**
   * A section's types appear in the order in which the fragments first
   * mention them, and a type appears exactly when some fragment of the
   * section has it.
   */
  lemma {:induction false} SplitSectionCategories(defs: seq<TypeDefinition>, frags: seq<Fragment>, category: string)
    requires AllDefined(defs, frags)
    ensures Categories(SplitSection(defs, frags)) == CategoriesOf(frags)
    ensures category in Categories(SplitSection(defs, frags))
        <==> exists i :: 0 <= i < |frags| && frags[i].key.category == category
  {
    if frags != [] {
      var init := frags[..|frags| - 1];
      var last := frags[|frags| - 1];
      SplitSectionCategories(defs, init, category);
      AddToCategoryCategories(SplitSection(defs, init), last.key.category, EntryText(defs, last), last.key.issue);
    }
    CategoriesOfMembers(frags, category);
  }

  /** For a type whose content is not shown, all of its issues fall under the empty text and nothing else. */
  lemma {:induction false} HiddenContentCollapses(defs: seq<TypeDefinition>, frags: seq<Fragment>, category: string, text: string)
    requires AllDefined(defs, frags) && Defined(defs, category) && !ShowsContent(defs, category)
    ensures text != "" ==> IssuesOf(defs, frags, category, text) == []
    ensures IssuesOf(defs, frags, category, "") == CategoryIssues(frags, category)
  {
    if frags != [] {
      HiddenContentCollapses(defs, frags[..|frags| - 1], category, text);
    }
  }

  /** The issues of every fragment of `category`, in input order. */
  function CategoryIssues(frags: seq<Fragment>, category: string): seq<string> {
    if frags == [] then []
    else
      var last := frags[|frags| - 1];
      CategoryIssues(frags[..|frags| - 1], category) + (if last.key.category == category then [last.key.issue] else [])
  }
}
