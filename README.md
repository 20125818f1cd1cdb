# towncrier `build`: decision logic, fragment grouping and rendering

This project models two parts of towncrier, the tool that assembles a
changelog from news fragments.

1. **The `build` command** (`src/towncrier/build.py`). It models:
   - the check that `--yes` and `--keep` are not both given;
   - where fragments are looked for;
   - how the project name, version and date fall back from the command line to the configuration to a detected value;
   - the three title modes (a separate title, no title, or a title rendered by the template);
   - how the final content is put together;
   - the file name used when there is one file per version;
   - the decision to remove the consumed fragment files.

   The command itself is modelled as a method that records its effects in a
   trace. The trace records the fragment lookup, detector and clock calls, the
   draft display, the news-file append, staging, file reports, the
   confirmation prompt and the removal. Lemmas fix the order of these effects.
2. **Fragment grouping and rendering, as the formatting tests pin them down**
   (`src/towncrier/test/test_format.py`).
   - `split_fragments` regroups each section's fragments by type and then by
     stripped text. Issues are kept in input order, and a type whose content
     is hidden collapses into one entry with the empty text.
   - `render_fragments` sorts each entry's issues: non-numeric issues come
     first, then numbers by value. It orders entries by their sorted issue
     lists and shows issues as `#N` or through an issue format.
   - It then lays out the default reStructuredText document: headings
     underlined to their length, blocks separated by two blank lines, and
     "No significant changes." for an empty section.

   The tests' vectors are stated as lemmas. The `test_split`, `test_basic` and
   `test_issue_format` vectors are proved end to end, from the input fragments
   to the exact output document.

Python dictionaries keep insertion order, so every dictionary level of the
grouping is a sequence kept in order of first appearance.

Files:
- `wrappers.dfy`: `Option` and `Result`.
- `text.dfy`: `str.strip`, repetition, `join`, string order, `int()` on digits, and `str.format` on named fields.
- `build.dfy`: the build command.
- `grouping.dfy`: `split_fragments`.
- `ordering.dfy`: issue keys and the stable sort.
- `render.dfy`: `render_fragments`.
- `vectors.dfy`: the test vectors.

Two details of the code that the model keeps:
- When both `--yes` and `--keep` are given, the option callbacks abort while the arguments are parsed (`src/towncrier/build.py:32-41`, `Build.ValidateAnswer`), so the build never starts. `should_remove_fragment_files` on its own lets `--keep` win (`src/towncrier/build.py:292-296`).
- With `--yes`, every file name is still reported before the files are removed (`src/towncrier/build.py:301-304`).

## Model

| member | source | states |
|---|---|---|
| Build.ValidateAnswer | src/towncrier/build.py:32-41 | the callback aborts exactly when its own flag is set and the other flag was already set; otherwise it returns the value unchanged |
| Build.ParseAnswersAbortsIffBoth | src/towncrier/build.py:87-102 | whichever of `--yes` and `--keep` is parsed first, the command aborts exactly when both are given; otherwise both values pass through unchanged |
| Build.ParseAnswers | src/towncrier/build.py:32-41 | when the two callbacks both accept, the result is the pair of flag values as given |
| Build.LocateFragments | src/towncrier/build.py:154-161 | an explicit `directory` is used alone; otherwise fragments are looked for under base/package_dir/package in the `newsfragments` subdirectory |
| Build.ResolveVersion | src/towncrier/build.py:176-181 | the command-line version wins, then the configured one; otherwise the detected version, stripped |
| Build.ResolveName | src/towncrier/build.py:183-194 | the command-line name wins even when empty, then a non-empty configured name, then the detected name if a package is configured, else `""` |
| Build.ResolveDate | src/towncrier/build.py:196-197 | the command-line date wins, else today's date stripped |
| Build.LookupEffects | src/towncrier/build.py:176-197 | the version detector, the name detector and the clock are each consulted exactly when their fallback is reached, and none of these lookups writes anything |
| Build.ResolveProjectData | src/towncrier/build.py:176-197 | the step-by-step reassignment of version, name and date gives the three fallback results and exactly the lookups listed above |
| Build.PlanTitle | src/towncrier/build.py:199-214 | a non-empty title format gives a separate title formatted from name, version and date; `False` gives no title; absent or `""` leaves the title to the template; separate and inline are never both chosen |
| Build.VersionFieldSubstituted | src/towncrier/build.py:253-258 | a per-version file name `p{version}q` becomes p, the version, q |
| Build.AssembleContent | src/towncrier/build.py:230-239 | with a separate title the content is the title, a line break, an underline of the title's length, a line break and the rendered text; otherwise it is the rendered text alone |
| Build.TitleIsFirstLine | src/towncrier/build.py:230-239 | a separate single-line title is the first line of the content |
| Build.NewsFileName | src/towncrier/build.py:251-258 | in single-file mode the configured name is used as is; in per-version mode it is the name formatted with the project name, version and date, so a name without braces is unchanged |
| Build.PerVersionFileName | src/towncrier/build.py:253-258 | with one file per version and a name `p{version}q`, the file written is p, the version being built, q |
| Build.ShouldRemoveFragmentFiles | src/towncrier/build.py:283-308 | no files: no removal, no report, no prompt. Otherwise every name is reported in every branch. `--keep` means no removal and no prompt; `--yes` means removal without a prompt; otherwise the user is asked and an empty reply means yes |
| Build.RemovalIsLast | src/towncrier/build.py:272-278 | the removal happens at most once and last, exactly when there are files, `--keep` is absent, and `--yes` or the reply confirms |
| Build.RemovalShowsNothing | src/towncrier/build.py:272-278 | the removal step never displays the draft |
| Build.RemovalEffects | src/towncrier/build.py:272-308 | no files: no effect at all. Otherwise every file is reported before anything else, and the prompt appears exactly when neither `--keep` nor `--yes` is given |
| Build.RemovalStep | src/towncrier/build.py:272-278 | the removal step as run: reports, then the prompt if asked, then the removal if decided |
| Build.DraftCommitsNothing | src/towncrier/build.py:241-248 | a draft build ends by showing the assembled content, and nothing in its trace appends, stages, reports, asks or removes |
| Build.WriteThenStageThenRemove | src/towncrier/build.py:250-278 | a real build appends the content to the news file, then stages that same file, then runs the removal step, and nothing before the append touches the news file, git or the fragments |
| Build.BuildTrace | src/towncrier/build.py:163-278 | a build first looks for the fragments; a draft build ends by showing the draft, and a real build never shows it |
| Build.RunBuild | src/towncrier/build.py:145-280 | the command, step by step, performs exactly the trace of effects the lemmas above describe |
| Text.Strip | src/towncrier/build.py:179-181 | the stripped string has no whitespace at either end |
| Text.StripIsInfix | src/towncrier/build.py:196-197 | stripping keeps one contiguous run of the input and removes only whitespace around it |
| Text.StripIdempotent | src/towncrier/build.py:196-197 | stripping a stripped string changes nothing |
| Text.StripAround | src/towncrier/test/test_format.py:19-24 | whitespace around a stripped, non-empty text is exactly what stripping removes |
| Text.FormatPlaceholder | src/towncrier/build.py:200-202 | formatting copies the text before a named placeholder, substitutes the field's value, and carries on after it |
| Text.FormatLiteral | src/towncrier/build.py:256-258 | a template without braces is copied unchanged |
| Grouping.FindDefinitionFirst | src/towncrier/test/test_format.py:41-47 | a type is defined exactly when some definition has its key, and the first such definition is used |
| Grouping.EntryText | src/towncrier/test/test_format.py:19-24 | the text a fragment contributes is stripped: its stripped content if the type shows content, else `""` |
| Grouping.SplitSectionSnoc | src/towncrier/test/test_format.py:15-28 | regrouping one more fragment adds its issue under its type and text to what the earlier fragments produced |
| Grouping.AddToCategoryLength | src/towncrier/test/test_format.py:30-39 | an addition opens at most one new type and leaves the section non-empty |
| Grouping.SplitSection | src/towncrier/test/test_format.py:15-39 | a section has no more types than fragments, and has at least one type exactly when it has a fragment |
| Grouping.AddEntryIssues | src/towncrier/test/test_format.py:30-39 | adding an issue under a text appends it to that text's issues and leaves every other text's issues alone |
| Grouping.AddEntryTexts | src/towncrier/test/test_format.py:30-39 | texts keep their places; a new text is appended at the end |
| Grouping.AddEntryWellFormed | src/towncrier/test/test_format.py:30-39 | after an addition, texts are still distinct, stripped keys and every entry still has an issue |
| Grouping.AddToCategoryIssues | src/towncrier/test/test_format.py:30-39 | adding under a type and text changes the issues of that pair only, by appending the issue |
| Grouping.AddToCategoryCategories | src/towncrier/test/test_format.py:30-39 | types keep their places; a new type is appended at the end |
| Grouping.AddToCategoryWellFormed | src/towncrier/test/test_format.py:30-39 | after an addition, types are still distinct keys with non-empty, well-formed entries |
| Grouping.SplitSectionWellFormed | src/towncrier/test/test_format.py:30-39 | the regrouped section is a well-formed nested dictionary: distinct types, distinct stripped texts within a type, and no entry without issues |
| Grouping.SplitSectionIssues | src/towncrier/test/test_format.py:15-32 | under every type and text, the entry lists exactly the issues of the fragments with that type and stripped text, in input order, unsorted |
| Grouping.SplitSectionCategories | src/towncrier/test/test_format.py:15-39 | a section's types appear in the order their first fragment arrives, and a type appears exactly when one of the section's fragments has it |
| Grouping.HiddenContentCollapses | src/towncrier/test/test_format.py:17-31 | for a type whose content is hidden, every issue falls under the empty text and no other text has any |
| Grouping.SplitFragments | src/towncrier/test/test_format.py:14-51 | one regrouped section per input section, in the same order and under the same name |
| Grouping.SplitFragmentsIndependent | src/towncrier/test/test_format.py:23-38 | a section's regrouping depends on its own fragments alone, not on the other sections |
| Grouping.SplitFragmentsWellFormed | src/towncrier/test/test_format.py:30-39 | every regrouped section is a well-formed nested dictionary |
| Ordering.KeysLtIrreflexive | src/towncrier/test/test_format.py:95-97 | no entry key sorts before itself |
| Ordering.KeyOf | src/towncrier/test/test_format.py:63-68 | a key has a non-negative number exactly for a numeric issue, which carries no text; any other issue keeps its text under the number -1 |
| Ordering.KeysLtTransitive | src/towncrier/test/test_format.py:95-97 | list comparison of issue keys is transitive |
| Ordering.KeysLtTotal | src/towncrier/test/test_format.py:95-97 | any two distinct key lists are ordered one way or the other |
| Ordering.IssueOrder | src/towncrier/test/test_format.py:63-68 | a non-numeric issue precedes a numeric one, numbers compare by value, and other issues compare as strings |
| Ordering.InsertSorted | src/towncrier/test/test_format.py:95-97 | inserting into a sorted list keeps it sorted and adds exactly the new element |
| Ordering.SortByKey | src/towncrier/test/test_format.py:95-97 | sorting returns a permutation of the input ordered by key; its stability is Ordering.SortByKeyStable |
| Ordering.InsertKeepsTies | src/towncrier/test/test_format.py:95-97 | an inserted element is placed before every element with the same key and passes over only elements with other keys |
| Ordering.SortByKeyStable | src/towncrier/test/test_format.py:95-97 | sorting is stable: for every key, the elements with that key appear in their input order |
| Ordering.SortedUnique | src/towncrier/test/test_format.py:95-97 | with pairwise distinct keys there is only one sorted arrangement of given elements |
| Ordering.SortIssues | src/towncrier/test/test_format.py:103 | an entry's issues are rendered as a permutation of them, sorted by issue key |
| Ordering.SortIssuesStable | src/towncrier/test/test_format.py:103 | issues with equal keys, such as `1` and `01`, keep their input order |
| Ordering.SortIssuesDetermined | src/towncrier/test/test_format.py:103 | a sorted permutation of the issues with distinct keys is the one rendered |
| Ordering.SortedIssuesLayout | src/towncrier/test/test_format.py:63-68 | in a sorted issue list every non-numeric issue precedes every numeric one, and numbers ascend by value |
| Render.IssueFormatWraps | src/towncrier/test/test_format.py:211-213 | an issue format `p{issue}q` shows every issue as p, the issue, q |
| Render.RenderIssueDefault | src/towncrier/test/test_format.py:95-103 | without an issue format an issue is always shown whole, and gains a `#` in front exactly when it is a number |
| Render.OrderEntries | src/towncrier/test/test_format.py:95-97 | the entries, issues sorted, are a permutation ordered by their issue-key lists |
| Render.OrderEntriesStable | src/towncrier/test/test_format.py:95-97 | entries whose sorted issue lists are equal keep their input order |
| Render.OrderEntriesDetermined | src/towncrier/test/test_format.py:95-97 | an arrangement of the entries with sorted issues, ordered by distinct keys, is the rendered order |
| Render.EntriesOrdered | src/towncrier/test/test_format.py:92-97 | rendered entries are ordered by their sorted issue lists, each with a text from the input and its issues sorted |
| Render.RenderEntry | src/towncrier/test/test_format.py:182-184 | formatting shows each issue in place and does not reorder |
| Render.RenderEntries | src/towncrier/test/test_format.py:182-184 | one rendered entry per input entry; the order and formatting are stated by Render.RenderEntriesSortThenFormat |
| Render.RenderEntriesSortThenFormat | src/towncrier/test/test_format.py:182-184 | the k-th rendered entry is the k-th entry in sorted order, with its text kept and its already sorted issues each passed through the issue format in place; the sorted order is by the raw issues, not the formatted ones |
| Render.Heading | src/towncrier/test/test_format.py:92-93 | a heading is its text, an underline of the depth's character repeated to the text's length, and a blank line |
| Render.CategoryBlocks | src/towncrier/test/test_format.py:92-103 | one block per present type, each its type's heading followed by the bullets of its entries in rendering order; which types are present and their order are stated by Render.PresentOnly, Render.PresentContains and Render.PresentInDefinitionOrder |
| Render.PresentOnly | src/towncrier/test/test_format.py:81-103 | only types that are both defined and present in the section get a block |
| Render.PresentAt | src/towncrier/test/test_format.py:81-103 | a present type's block comes after the blocks of the present types defined before it |
| Render.PresentContains | src/towncrier/test/test_format.py:81-103 | every present type gets a block |
| Render.PresentInDefinitionOrder | src/towncrier/test/test_format.py:81-103 | two present types are rendered in the order of their definitions, not the order in which they arrived |
| Render.EmptySectionSaysNoChanges | src/towncrier/test/test_format.py:106-109 | a section without fragments renders as its heading, if it is named, and "No significant changes." |
| Render.EntryLines | src/towncrier/test/test_format.py:95-103 | a type whose content is shown has one bullet per entry, starting with `- ` and the entry's text; a hidden type has a single bullet |
| Render.SectionLines | src/towncrier/test/test_format.py:92-118 | a named section starts with its heading in the first underline; the unnamed section is just its type blocks; a section without fragments ends with "No significant changes." |
| Render.RenderFragments | src/towncrier/test/test_format.py:89-133 | the document is the title heading, when the title is rendered, followed by the sections separated by two blank lines, every line ended by a line break |
| Render.EntryOnOneLine | src/towncrier/test/test_format.py:278-325 | with wrapping disabled, an entry whose text and issues have no line break is one line |
| SplitVectors.SplitUnnamedSection | src/towncrier/test/test_format.py:16-34 | two hidden fragments collapse under `""`; equal texts, one with trailing whitespace, merge as `2, 5`; the bugfix with the same text is separate |
| SplitVectors.SplitWebSection | src/towncrier/test/test_format.py:23-38 | the `Web` section regroups on its own: bugfix before feature as they arrive, trailing whitespace stripped |
| SplitVectors.TestSplit | src/towncrier/test/test_format.py:14-51 | `test_split` with its own strings: both sections regrouped exactly as expected |
| SplitVectors.SplitBasicSection | src/towncrier/test/test_format.py:58-75 | the unnamed section of `test_basic`: hidden issues kept as `142, 1, 9, bar` and the repeated text merged as `2, 72, 9`, nothing sorted |
| SplitVectors.SplitBasicWeb | src/towncrier/test/test_format.py:77 | the `Web` section of `test_basic`: one bugfix entry |
| OrderVectors.MiscIssuesSorted | src/towncrier/test/test_format.py:63-68 | `142, 1, 9, bar` sorts to `bar, 1, 9, 142`, not asciibetically |
| OrderVectors.FeatureIssuesSorted | src/towncrier/test/test_format.py:70-72 | `2, 72, 9` sorts to `2, 9, 72` |
| OrderVectors.FeatureEntriesOrdered | src/towncrier/test/test_format.py:95-97 | the feature entries are ordered `Fun!` (baz), `Foo added.` (2, 9, 72), `Stuff!` (4) |
| RenderVectors.FeatureRendered | src/towncrier/test/test_format.py:95-97 | the feature entries render as `baz`, `#2, #9, #72`, `#4` |
| RenderVectors.MiscRendered | src/towncrier/test/test_format.py:103 | the hidden entry renders as `bar, #1, #9, #142` |
| RenderVectors.FeatureLines | src/towncrier/test/test_format.py:95-97 | the three feature bullets, each text followed by its issues in parentheses |
| RenderVectors.MiscLines | src/towncrier/test/test_format.py:103 | a hidden type is one bullet listing its issues |
| RenderVectors.UnnamedSection | src/towncrier/test/test_format.py:92-103 | the unnamed section has no heading of its own: Features, then Misc, two blank lines apart |
| RenderVectors.NamesSection | src/towncrier/test/test_format.py:106-109 | the empty `Names` section says "No significant changes." |
| RenderVectors.WebSection | src/towncrier/test/test_format.py:112-118 | a named section heading uses the first underline, and its types use the second |
| RenderVectors.BasicRendered | src/towncrier/test/test_format.py:124-133 | for any two underline characters, the `test_basic` groups render as the title, then the three sections |
| RenderVectors.TestBasicSplit | src/towncrier/test/test_format.py:58-87 | `split_fragments` on the `test_basic` input gives the three expected grouped sections |
| RenderVectors.TestBasic | src/towncrier/test/test_format.py:53-133 | `test_basic`: the whole document, character for character |
| RenderVectors.TestBasicWeirdUnderlines | src/towncrier/test/test_format.py:135-177 | the same fragments with `*` and `^` underlines give the expected document |
| RenderVectors.XxShown | src/towncrier/test/test_format.py:213 | `xx{issue}` shows every issue with `xx` in front |
| RenderVectors.XxRendered | src/towncrier/test/test_format.py:182-184 | issues are sorted before formatting: `xxbar, xx1, xx9, xx142` |
| RenderVectors.IssueFormatSplit | src/towncrier/test/test_format.py:186-210 | the four hidden fragments regroup into one entry under the only type |
| RenderVectors.TestIssueFormat | src/towncrier/test/test_format.py:179-220 | `test_issue_format`: the whole document, character for character |

## Left out

- Command-line plumbing: the click options, `click.echo` messages and the stdout/stderr routing are not modelled. The removal step records only the reported file names and the prompt.
- The confirmation prompt is an `Option<bool>` reply. `None` stands for pressing Enter, which takes the default, yes.
- `--yes` and `--keep` are plain booleans. An absent flag (`None`) and `False` are both falsy, and only truthiness is consulted.
- External calls are left out and their results are inputs:
  - configuration loading and its error exit;
  - reading the template;
  - `find_fragments`;
  - `get_version` and `get_project_name`;
  - `date.today()`;
  - `append_to_newsfile`;
  - `_git.stage_newsfile` and `_git.remove_files`.

  Their invocations appear as trace effects, and none of them is modelled as failing.
- Paths: `os.path.abspath` is not modelled. A path is the list of components that `os.path.join` would join.
- The renderer inside the build command is a parameter. It maps "render the title with the fragments" to the rendered text.
- `split_fragments`' `all_bullets` mode and its continuation-line indentation are not modelled. Only the default mode, which strips content, is.
- The Jinja template engine is not modelled. The document layout of the default template is modelled as the formatting tests show it.
- Render.RenderFragments: does not model text wrapping. Output is as with wrapping disabled, which matches the tests whose lines are shorter than the wrap width. `textwrap`'s line breaking is library behaviour and `test_line_wrapping` is not a vector here.
- Render.Heading: only single-character underlines are modelled.
- Build.AssembleContent: the underline is a single character, while Python repeats the whole first `underlines` string, which may be longer than one character.
- Build.BuildTrace: requires a non-empty `underlines` list. With an empty list Python raises `IndexError` when it reads the first underline (`src/towncrier/build.py:225`); that error is not modelled.
- Build.RunBuild: has the same non-empty `underlines` precondition and single-character underline as Build.BuildTrace and Build.AssembleContent.
- Text.Format: models `str.format` on named fields only. A placeholder for an unknown field is copied, while Python raises `KeyError`. `{{` escapes, positional fields and format specifications are not modelled.
- Text.IsSpace: the whitespace set is Python's `str.isspace()` as of current Unicode versions, written out as a fixed list of characters. Changes to the Unicode database across Python versions are not modelled.
- Ordering.KeyOf: an issue counts as numeric only when it is a non-empty run of ASCII digits. Python's `int()` also accepts signs, underscores and surrounding whitespace.
- SplitVectors.SplitUnnamedSection: stated over any stripped text and any trailing whitespace. The test's own strings are one instance, given in SplitVectors.TestSplit.
- SplitVectors.TestSplit: `test_split` compares dictionaries, so order does not matter there. The model states the order as well, as Python dictionaries keep it.
