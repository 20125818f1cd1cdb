/**
 * `render_fragments` with the default reStructuredText template, as the
 * formatting tests pin its output down: an optional title, then each section
 * (a heading unless it is the unnamed one), within it each present type in
 * definition order with its heading, and under it one bullet per entry;
 * blocks are separated by two blank lines, and a section without fragments
 * says "No significant changes.". Issues are sorted before they are
 * formatted, and entries are ordered by their sorted issue lists.
 */
module Render {
  import opened Wrappers
  import opened Text
  import opened Grouping
  import opened Ordering

  // ---------------------------------------------------------------------------
  // Issues and entries

  /**
   * `render_issue`: without an issue format a number is shown as `#N` and
   * anything else as it is; with one, `{issue}` in it is replaced by the issue.
   */
  function RenderIssue(issueFormat: Option<string>, issue: string): string {
    match issueFormat
    case None => if IsNumeric(issue) then "#" + issue else issue
    case Some(f) => Format(f, [Field("issue", issue)])
  }

  /** Without an issue format the issue is always shown whole, and it gains a `#` in front exactly when it is a number. */
  lemma RenderIssueDefault(issue: string)
    ensures var r := RenderIssue(None, issue);
      && |r| >= |issue| && r[|r| - |issue|..] == issue
      && (r != issue <==> IsNumeric(issue))
      && (IsNumeric(issue) ==> r == "#" + issue)
  {
  }

  /** An issue format `p{issue}q` wraps every issue in `p` and `q`. */
  lemma IssueFormatWraps(p: string, q: string, issue: string)
    requires '{' !in p && '{' !in q
    ensures RenderIssue(Some(p + Placeholder("issue") + q), issue) == p + issue + q
  {
    var fields := [Field("issue", issue)];
    assert Lookup(fields, "issue") == Some(issue);
    FormatPlaceholder(p, "issue", q, fields);
    FormatLiteral(q, fields);
  }

  function EntryKey(e: Entry): seq<IssueKey> {
    seq(|e.issues|, i requires 0 <= i < |e.issues| => KeyOf(e.issues[i]))
  }

  /** Every entry with its issues in rendering order. */
  function WithSortedIssues(entries: seq<Entry>): seq<Entry>
  {
    seq(|entries|, i requires 0 <= i < |entries| => Entry(entries[i].text, SortIssues(entries[i].issues)))
  }

  /** Entries with sorted issues, ordered by their issue lists (`entries.sort(key=entry_key)`). */
  function OrderEntries(entries: seq<Entry>): (r: seq<Entry>)
    ensures multiset(r) == multiset(WithSortedIssues(entries))
    ensures SortedBy(r, EntryKey)
  {
    SortByKey(WithSortedIssues(entries), EntryKey)
  }

  /** Entries whose sorted issue lists are equal keep their input order. */
  lemma OrderEntriesStable(entries: seq<Entry>, k: seq<IssueKey>)
    ensures WithKey(OrderEntries(entries), EntryKey, k) == WithKey(WithSortedIssues(entries), EntryKey, k)
  {
    SortByKeyStable(WithSortedIssues(entries), EntryKey, k);
  }

  /** An arrangement of the entries, issues sorted, ordered by pairwise distinct keys is the one rendered. */
  lemma OrderEntriesDetermined(entries: seq<Entry>, ordered: seq<Entry>)
    requires multiset(ordered) == multiset(WithSortedIssues(entries)) && SortedBy(ordered, EntryKey)
    requires forall i, j :: 0 <= i < j < |ordered| ==> EntryKey(ordered[i]) != EntryKey(ordered[j])
    ensures OrderEntries(entries) == ordered
  {
    SortedUnique(ordered, OrderEntries(entries), EntryKey);
  }

  /** An entry with each of its issues rendered, in the same order. */
  function RenderEntry(issueFormat: Option<string>, e: Entry): (r: Entry)
    ensures r.text == e.text && |r.issues| == |e.issues|
    ensures forall i :: 0 <= i < |e.issues| ==> r.issues[i] == RenderIssue(issueFormat, e.issues[i])
  {
    Entry(e.text, seq(|e.issues|, i requires 0 <= i < |e.issues| => RenderIssue(issueFormat, e.issues[i])))
  }

  /** Ordered entries with each issue rendered; formatting does not reorder. */
  function RenderEntries(issueFormat: Option<string>, entries: seq<Entry>): (r: seq<Entry>)
    ensures |r| == |entries|
  {
    var ordered := OrderEntries(entries);
    EntriesOrdered(entries);
    seq(|ordered|, k requires 0 <= k < |ordered| => RenderEntry(issueFormat, ordered[k]))
  }

  /**
   * Entries are ordered first and formatted afterwards: the k-th rendered
   * entry is the k-th ordered entry, its issues, already sorted by their raw
   * values, each passed through the issue format in place.
   */
  lemma RenderEntriesSortThenFormat(issueFormat: Option<string>, entries: seq<Entry>)
    ensures var r, o := RenderEntries(issueFormat, entries), OrderEntries(entries);
      && |r| == |o| == |entries|
      && SortedBy(o, EntryKey)
      && (forall k :: 0 <= k < |r| ==>
            && r[k].text == o[k].text
            && |r[k].issues| == |o[k].issues|
            && SortedBy(o[k].issues, IssueSortKey)
            && (forall i :: 0 <= i < |o[k].issues| ==> r[k].issues[i] == RenderIssue(issueFormat, o[k].issues[i])))
  {
    EntriesOrdered(entries);
  }

  // ---------------------------------------------------------------------------
  // Layout

  /** A heading: its text, an underline of the same length, and a blank line. */
  function Heading(text: string, underline: char): (lines: seq<string>)
    ensures |lines| == 3 && lines[0] == text && lines[2] == ""
    ensures |lines[1]| == |text| && forall i :: 0 <= i < |text| ==> lines[1][i] == underline
  {
    [text, Repeat(underline, |text|), ""]
  }

  /** One bullet per entry, or, for a type whose text is hidden, one bullet listing the issues. */
  function EntryLines(def: TypeDefinition, entries: seq<Entry>): (lines: seq<string>)
    ensures def.showContent ==> |lines| == |entries|
    ensures def.showContent ==> forall i :: 0 <= i < |entries| ==>
      |lines[i]| >= 2 + |entries[i].text| && lines[i][..2 + |entries[i].text|] == "- " + entries[i].text
    ensures !def.showContent ==> |lines| == 1 && |lines[0]| >= 2 && lines[0][..2] == "- "
  {
    if def.showContent then
      seq(|entries|, i requires 0 <= i < |entries| =>
        "- " + entries[i].text + " (" + Join(entries[i].issues, ", ") + ")")
    else
      ["- " + Join(IssuesIn(entries, ""), ", ")]
  }

  /** Blocks of lines separated by two blank lines. */
  function JoinBlocks(blocks: seq<seq<string>>): seq<string> {
    if blocks == [] then []
    else if |blocks| == 1 then blocks[0]
    else blocks[0] + ["", ""] + JoinBlocks(blocks[1..])
  }

  /** The definitions of the types present in `groups`, in definition order. */
  function PresentDefinitions(defs: seq<TypeDefinition>, groups: seq<CategoryGroup>): seq<TypeDefinition> {
    if defs == [] then []
    else (if defs[0].key in Categories(groups) then [defs[0]] else []) + PresentDefinitions(defs[1..], groups)
  }

  /** Only defined types that are present are rendered. */
  lemma {:induction false} PresentOnly(defs: seq<TypeDefinition>, groups: seq<CategoryGroup>)
    ensures forall k :: 0 <= k < |PresentDefinitions(defs, groups)| ==>
      PresentDefinitions(defs, groups)[k] in defs && PresentDefinitions(defs, groups)[k].key in Categories(groups)
  {
    if defs != [] {
      PresentOnly(defs[1..], groups);
      assert forall d :: d in defs[1..] ==> d in defs;
    }
  }

  function CategoryBlocks(defs: seq<TypeDefinition>, issueFormat: Option<string>, groups: seq<CategoryGroup>, underline: char): (blocks: seq<seq<string>>)
    ensures |blocks| == |PresentDefinitions(defs, groups)|
    ensures forall k :: 0 <= k < |blocks| ==>
      var d := PresentDefinitions(defs, groups)[k];
      blocks[k] == Heading(d.name, underline) + EntryLines(d, RenderEntries(issueFormat, EntriesOf(groups, d.key)))
  {
    var present := PresentDefinitions(defs, groups);
    seq(|present|, k requires 0 <= k < |present| =>
      Heading(present[k].name, underline) + EntryLines(present[k], RenderEntries(issueFormat, EntriesOf(groups, present[k].key))))
  }

  const NoChanges := "No significant changes."

  /**
   * A section: a heading in the first underline unless it is the unnamed
   * section, then its types, underlined with the next character for a named
   * section; or the no-changes line when it has no fragments.
   */
  function SectionLines(defs: seq<TypeDefinition>, issueFormat: Option<string>, underlines: seq<char>, section: SectionGroups): (lines: seq<string>)
    requires |underlines| >= 2
    ensures section.name != "" ==> |lines| >= 3 && lines[..3] == Heading(section.name, underlines[0])
    ensures section.name == "" && section.categories != [] ==>
      lines == JoinBlocks(CategoryBlocks(defs, issueFormat, section.categories, underlines[0]))
    ensures section.categories == [] ==> |lines| >= 1 && lines[|lines| - 1] == NoChanges
  {
    var named := section.name != "";
    var typeUnderline := if named then underlines[1] else underlines[0];
    (if named then Heading(section.name, underlines[0]) else [])
    + (if section.categories == [] then [NoChanges]
       else JoinBlocks(CategoryBlocks(defs, issueFormat, section.categories, typeUnderline)))
  }

  /** The title line the template writes: `name version (date)`, or `version (date)` without a name. */
  function TitleText(name: string, version: string, date: string): string {
    if name != "" then name + " " + version + " (" + date + ")" else version + " (" + date + ")"
  }

  /** The document text: every line followed by a line break. */
  function Unlines(lines: seq<string>): string {
    if lines == [] then [] else lines[0] + "\n" + Unlines(lines[1..])
  }

  lemma {:induction false} UnlinesAppend(a: seq<string>, b: seq<string>)
    ensures Unlines(a + b) == Unlines(a) + Unlines(b)
  {
    if a == [] {
      assert a + b == b;
    } else {
      assert (a + b)[0] == a[0] && (a + b)[1..] == a[1..] + b;
      UnlinesAppend(a[1..], b);
      var head := a[0] + "\n";
      assert Unlines(a + b) == head + (Unlines(a[1..]) + Unlines(b));
      assert Unlines(a) == head + Unlines(a[1..]);
    }
  }

  /** `render_fragments`: the lines of the document, each ended by a line break. */
  function RenderFragments(
    defs: seq<TypeDefinition>, issueFormat: Option<string>, sections: seq<SectionGroups>,
    underlines: seq<char>, topUnderline: char, name: string, version: string, date: string, renderTitle: bool): (r: string)
    requires |underlines| >= 2
    ensures var body := JoinBlocks(seq(|sections|, s requires 0 <= s < |sections| => SectionLines(defs, issueFormat, underlines, sections[s])));
      && (renderTitle ==> r == Unlines(Heading(TitleText(name, version, date), topUnderline)) + Unlines(body))
      && (!renderTitle ==> r == Unlines(body))
  {
    var title := if renderTitle then Heading(TitleText(name, version, date), topUnderline) else [];
    var body := JoinBlocks(seq(|sections|, s requires 0 <= s < |sections| => SectionLines(defs, issueFormat, underlines, sections[s])));
    UnlinesAppend(title, body);
    assert !renderTitle ==> title + body == body;
    Unlines(title + body)
  }

  // ---------------------------------------------------------------------------
  // Properties of the rendering

  /** A section with no fragments renders as its heading (if named) and the no-changes line. */
  lemma EmptySectionSaysNoChanges(defs: seq<TypeDefinition>, issueFormat: Option<string>, underlines: seq<char>, name: string)
    requires |underlines| >= 2
    ensures var lines := SectionLines(defs, issueFormat, underlines, SectionGroups(name, []));
      && lines[|lines| - 1] == NoChanges
      && (name != "" ==> lines == [name, Repeat(underlines[0], |name|), "", NoChanges])
      && (name == "" ==> lines == [NoChanges])
  {
  }

  /**
   * Within a type, entries are ordered by their sorted issue lists, every
   * entry keeps its text, and its issues are the same issues, sorted.
   */
  lemma EntriesOrdered(entries: seq<Entry>)
    ensures var r := OrderEntries(entries);
      && |r| == |entries|
      && (forall i, j :: 0 <= i < j < |r| ==> !KeysLt(EntryKey(r[j]), EntryKey(r[i])))
      && (forall k :: 0 <= k < |r| ==>
            SortedBy(r[k].issues, IssueSortKey)
            && (exists m :: 0 <= m < |entries| && r[k].text == entries[m].text
                  && multiset(r[k].issues) == multiset(entries[m].issues)))
  {
    var r := OrderEntries(entries);
    var w := WithSortedIssues(entries);
    assert |r| == |multiset(r)| == |multiset(w)| == |w|;
    forall k | 0 <= k < |r|
      ensures SortedBy(r[k].issues, IssueSortKey)
      ensures exists m :: 0 <= m < |entries| && r[k].text == entries[m].text
                && multiset(r[k].issues) == multiset(entries[m].issues)
    {
      assert r[k] in multiset(w);
      var m :| 0 <= m < |w| && w[m] == r[k];
    }
  }

  /** With wrapping disabled every entry stays on one line when its text and issues have no line break. */
  lemma EntryOnOneLine(def: TypeDefinition, entries: seq<Entry>, k: int)
    requires def.showContent && 0 <= k < |entries|
    requires '\n' !in entries[k].text
    requires forall i :: 0 <= i < |entries[k].issues| ==> '\n' !in entries[k].issues[i]
    ensures '\n' !in EntryLines(def, entries)[k]
  {
    JoinAvoids(entries[k].issues, ", ", '\n');
  }

  /** Filtering distributes over concatenation. */
  lemma {:induction false} PresentAppend(a: seq<TypeDefinition>, b: seq<TypeDefinition>, groups: seq<CategoryGroup>)
    ensures PresentDefinitions(a + b, groups) == PresentDefinitions(a, groups) + PresentDefinitions(b, groups)
  {
    if a == [] {
      assert a + b == b;
    } else {
      var head := if a[0].key in Categories(groups) then [a[0]] else [];
      assert (a + b)[0] == a[0] && (a + b)[1..] == a[1..] + b;
      assert PresentDefinitions(a + b, groups) == head + PresentDefinitions(a[1..] + b, groups);
      PresentAppend(a[1..], b, groups);
      assert PresentDefinitions(a, groups) == head + PresentDefinitions(a[1..], groups);
    }
  }

  /** A present type's definition is rendered after those of the present types defined before it. */
  lemma PresentAt(defs: seq<TypeDefinition>, groups: seq<CategoryGroup>, j: int)
    requires 0 <= j < |defs| && defs[j].key in Categories(groups)
    ensures var n := |PresentDefinitions(defs[..j], groups)|;
      n < |PresentDefinitions(defs, groups)| && PresentDefinitions(defs, groups)[n] == defs[j]
  {
    var after := [defs[j]] + defs[j + 1..];
    assert defs == defs[..j] + after;
    PresentAppend(defs[..j], after, groups);
    assert after[0] == defs[j] && after[1..] == defs[j + 1..];
  }

  /** Every definition of a present type is among the rendered ones. */
  lemma PresentContains(defs: seq<TypeDefinition>, groups: seq<CategoryGroup>, j: int)
    requires 0 <= j < |defs| && defs[j].key in Categories(groups)
    ensures exists b :: 0 <= b < |PresentDefinitions(defs, groups)| && PresentDefinitions(defs, groups)[b] == defs[j]
  {
    PresentAt(defs, groups, j);
  }

  /** Two present types are rendered in the order of their definitions. */
  lemma PresentInDefinitionOrder(defs: seq<TypeDefinition>, groups: seq<CategoryGroup>, i: int, j: int)
    requires 0 <= i < j < |defs|
    requires defs[i].key in Categories(groups) && defs[j].key in Categories(groups)
    ensures exists a, b ::
      && 0 <= a < b < |PresentDefinitions(defs, groups)|
      && PresentDefinitions(defs, groups)[a] == defs[i] && PresentDefinitions(defs, groups)[b] == defs[j]
  {
    PresentAt(defs, groups, i);
    PresentAt(defs, groups, j);
    var between := defs[i..j];
    assert defs[..j] == defs[..i] + between;
    PresentAppend(defs[..i], between, groups);
    assert between[0] == defs[i];
    assert |PresentDefinitions(between, groups)| > 0;
    var a, b := |PresentDefinitions(defs[..i], groups)|, |PresentDefinitions(defs[..j], groups)|;
    assert a < b;
  }
}
