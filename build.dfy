/**
 * The decision logic of towncrier's `build` command: validation of the
 * `--yes`/`--keep` pair, where fragments are looked for, how the project name,
 * version and date fall back from the command line to the configuration to a
 * detected value, the three title modes, how the final content is assembled,
 * the per-version file name, and the order of the effects the command performs.
 *
 * Configuration loading, project detection, the clock, the fragment finder,
 * the renderer, the news-file writer, git and the interactive prompt are not
 * modelled: their results are inputs, and their invocations are recorded as
 * `Effect`s in a trace.
 */
module Build {
  import opened Wrappers
  import opened Text

  // ---------------------------------------------------------------------------
  // --yes / --keep

  /** The two confirmation flags, each validated by the same callback. */
  datatype AnswerFlag = AnswerYes | AnswerKeep

  /** Raised (as `ctx.abort()`) when both flags are given. */
  datatype Abort = BothYesAndKeep

  function Other(flag: AnswerFlag): AnswerFlag {
    if flag == AnswerKeep then AnswerYes else AnswerKeep
  }

  /**
   * The option callback for `--yes` and `--keep`. `parsed` holds the flags
   * the command-line parser has already processed (`ctx.params`); a flag not
   * yet processed reads as `None`, which is falsy.
   */
  function ValidateAnswer(parsed: map<AnswerFlag, bool>, flag: AnswerFlag, value: bool): (r: Result<bool, Abort>)
    ensures r.Err? <==> value && Other(flag) in parsed && parsed[Other(flag)]
    ensures r.Ok? ==> r.value == value
  {
    var valueCheck := Other(flag) in parsed && parsed[Other(flag)];
    if valueCheck && value then Err(BothYesAndKeep) else Ok(value)
  }

  /**
   * Both callbacks, run in the order the parser processes the two options
   * (`yesFirst` says which comes first); yields the pair `(answer_yes, answer_keep)`.
   */
  function ParseAnswers(yesFirst: bool, yes: bool, keep: bool): (r: Result<(bool, bool), Abort>)
    ensures r.Ok? ==> r.value == (yes, keep)
  {
    var first := if yesFirst then AnswerYes else AnswerKeep;
    var firstValue := if yesFirst then yes else keep;
    match ValidateAnswer(map[], first, firstValue)
    case Err(e) => Err(e)
    case Ok(v1) =>
      var second := Other(first);
      var secondValue := if yesFirst then keep else yes;
      match ValidateAnswer(map[first := v1], second, secondValue)
      case Err(e) => Err(e)
      case Ok(v2) => if yesFirst then Ok((v1, v2)) else Ok((v2, v1))
  }

  /** Whatever the order of the two options, the command aborts exactly when both are set. */
  lemma ParseAnswersAbortsIffBoth(yesFirst: bool, yes: bool, keep: bool)
    ensures ParseAnswers(yesFirst, yes, keep).Err? <==> yes && keep
    ensures ParseAnswers(yesFirst, yes, keep).Ok? ==> ParseAnswers(yesFirst, yes, keep).value == (yes, keep)
  {
    var first := if yesFirst then AnswerYes else AnswerKeep;
    var firstValue := if yesFirst then yes else keep;
    assert ValidateAnswer(map[], first, firstValue) == Ok(firstValue);
  }

  // ---------------------------------------------------------------------------
  // Configuration as the build command reads it

  /** `title_format`: absent (`None`), explicitly `False`, or a format string (possibly `""`). */
  datatype TitleFormat = Unset | Disabled | Template(format: string)

  /** The settings `__main` consults; `name` and `package` are `""` when not configured. */
  datatype Config = Config(
    directory: Option<string>,
    packageDir: string,
    package: string,
    name: string,
    version: Option<string>,
    titleFormat: TitleFormat,
    underlines: seq<char>,
    filename: string,
    singleFile: bool,
    startString: string)

  /** A path as the components `os.path.join` would join. */
  type Path = seq<string>

  /** Where fragments are looked for: a root and, in the package layout, the `newsfragments` subdirectory. */
  datatype FragmentLocation = FragmentLocation(root: Path, subdirectory: Option<string>)

  /** An explicit `directory` is used as is; otherwise fragments live in `<package_dir>/<package>/newsfragments`. */
  function LocateFragments(baseDirectory: string, config: Config): (loc: FragmentLocation)
    ensures config.directory.Some? ==> loc.root == [config.directory.value] && loc.subdirectory.None?
    ensures config.directory.None? ==>
      loc.root == [baseDirectory, config.packageDir, config.package] && loc.subdirectory == Some("newsfragments")
  {
    if config.directory.Some? then FragmentLocation([config.directory.value], None)
    else FragmentLocation([baseDirectory, config.packageDir, config.package], Some("newsfragments"))
  }

  // ---------------------------------------------------------------------------
  // Name, version and date

  /** `--version`, else the configured version, else the detected one with surrounding whitespace removed. */
  function ResolveVersion(cli: Option<string>, configured: Option<string>, detected: string): (v: string)
    ensures cli.Some? ==> v == cli.value
    ensures cli.None? && configured.Some? ==> v == configured.value
    ensures cli.None? && configured.None? ==> v == Strip(detected) && IsStripped(v)
  {
    if cli.Some? then cli.value
    else if configured.Some? then configured.value
    else Strip(detected)
  }

  /**
   * `--name` (even an empty one), else a non-empty configured name, else the
   * name detected from the package when a package is configured, else `""`.
   */
  function ResolveName(cli: Option<string>, configured: string, package: string, detected: string): (n: string)
    ensures cli.Some? ==> n == cli.value
    ensures cli.None? && configured != "" ==> n == configured
    ensures cli.None? && configured == "" ==> n == (if package != "" then detected else "")
  {
    if cli.Some? then cli.value
    else if configured != "" then configured
    else if package != "" then detected
    else ""
  }

  /** `--date`, else today's date with surrounding whitespace removed. */
  function ResolveDate(cli: Option<string>, today: string): (d: string)
    ensures cli.Some? ==> d == cli.value
    ensures cli.None? ==> d == Strip(today) && IsStripped(d)
  {
    if cli.Some? then cli.value else Strip(today)
  }

  /** The `versiondata` handed to the renderer. */
  datatype VersionData = VersionData(name: string, version: string, date: string)

  /** The replacement fields of the title format and of a per-version file name. */
  function VersionFields(vd: VersionData): seq<Field> {
    [Field("name", vd.name), Field("version", vd.version), Field("project_date", vd.date)]
  }

  /** The per-version file-name template `NEWS-{version}.rst` names the file after the version. */
  lemma VersionFieldSubstituted(p: string, q: string, vd: VersionData)
    requires '{' !in p && '{' !in q
    ensures Format(p + Placeholder("version") + q, VersionFields(vd)) == p + vd.version + q
  {
    var fields := VersionFields(vd);
    assert Lookup(fields, "version") == Some(vd.version);
    FormatPlaceholder(p, "version", q, fields);
    FormatLiteral(q, fields);
  }

  // ---------------------------------------------------------------------------
  // Title and content

  /**
   * The title decision: whether a title line is produced here and prefixed to
   * the rendered fragments (`separately`), or left to the template
   * (`withFragments`), or omitted.
   */
  datatype TitlePlan = TitlePlan(topLine: string, separately: bool, withFragments: bool)

  /**
   * A non-empty format string gives a separate title; `False` gives no title;
   * `None` and `""` let the template render the title with the fragments.
   */
  function PlanTitle(titleFormat: TitleFormat, vd: VersionData): (p: TitlePlan)
    ensures p.separately <==> titleFormat.Template? && titleFormat.format != ""
    ensures p.withFragments <==> titleFormat.Unset? || titleFormat == Template("")
    ensures !(p.separately && p.withFragments)
    ensures p.separately ==> p.topLine == Format(titleFormat.format, VersionFields(vd))
    ensures !p.separately ==> p.topLine == ""
  {
    if titleFormat.Template? && titleFormat.format != "" then
      TitlePlan(Format(titleFormat.format, VersionFields(vd)), true, false)
    else if titleFormat.Disabled? then
      TitlePlan("", false, false)
    else
      TitlePlan("", false, true)
  }

  /**
   * The content handed to the writer: for a separate title, the title line,
   * an underline of the same length, then the rendered fragments; otherwise
   * the rendered fragments alone.
   */
  function AssembleContent(plan: TitlePlan, topUnderline: char, rendered: string): (c: string)
    ensures !plan.separately ==> c == rendered
    ensures plan.separately ==>
      var n := |plan.topLine|;
      && |c| == 2 * n + 2 + |rendered|
      && c[..n] == plan.topLine
      && c[n] == '\n'
      && (forall i :: n < i <= 2 * n ==> c[i] == topUnderline)
      && c[2 * n + 1] == '\n'
      && c[2 * n + 2..] == rendered
  {
    if plan.separately then
      var underline := Repeat(topUnderline, |plan.topLine|);
      Join3(plan.topLine, underline, rendered, "\n");
      var c := Join([plan.topLine, underline, rendered], "\n");
      assert c == plan.topLine + "\n" + underline + "\n" + rendered;
      assert c[..|plan.topLine|] == plan.topLine;
      assert forall i :: |plan.topLine| < i <= 2 * |plan.topLine| ==> c[i] == underline[i - |plan.topLine| - 1];
      c
    else
      rendered
  }

  /** The text before the first line break. */
  function FirstLine(s: string): (r: string)
    ensures r <= s
    ensures '\n' !in r
    ensures |r| < |s| ==> s[|r|] == '\n'
  {
    if s == [] || s[0] == '\n' then [] else [s[0]] + FirstLine(s[1..])
  }

  /** A separate single-line title is the first line of the content. */
  lemma {:induction false} TitleIsFirstLine(plan: TitlePlan, topUnderline: char, rendered: string)
    requires plan.separately && '\n' !in plan.topLine
    ensures FirstLine(AssembleContent(plan, topUnderline, rendered)) == plan.topLine
  {
    var c := AssembleContent(plan, topUnderline, rendered);
    FirstLineOfPrefix(plan.topLine, c[|plan.topLine|..]);
    assert c == plan.topLine + c[|plan.topLine|..];
  }

  lemma {:induction false} FirstLineOfPrefix(line: string, rest: string)
    requires '\n' !in line && rest != [] && rest[0] == '\n'
    ensures FirstLine(line + rest) == line
  {
    if line != [] {
      assert (line + rest)[1..] == line[1..] + rest;
      FirstLineOfPrefix(line[1..], rest);
    } else {
      assert line + rest == rest;
    }
  }

  /** The file written to: the configured name, formatted with the version data when there is one file per version. */
  function NewsFileName(config: Config, vd: VersionData): (f: string)
    ensures config.singleFile ==> f == config.filename
    ensures !config.singleFile && '{' !in config.filename ==> f == config.filename
    ensures !config.singleFile ==> f == Format(config.filename, VersionFields(vd))
  {
    if !config.singleFile then
      FormatLiteralIfPlain(config.filename, VersionFields(vd));
      Format(config.filename, VersionFields(vd))
    else config.filename
  }

  /** A per-version file name `p{version}q` names the file after the version being built. */
  lemma PerVersionFileName(config: Config, vd: VersionData, p: string, q: string)
    requires !config.singleFile && config.filename == p + Placeholder("version") + q
    requires '{' !in p && '{' !in q
    ensures NewsFileName(config, vd) == p + vd.version + q
  {
    VersionFieldSubstituted(p, q, vd);
  }

  lemma FormatLiteralIfPlain(t: string, fields: seq<Field>)
    ensures '{' !in t ==> Format(t, fields) == t
  {
    if '{' !in t { FormatLiteral(t, fields); }
  }

  // ---------------------------------------------------------------------------
  // Removing the consumed fragments

  /**
   * Decides whether the consumed fragment files are removed. Every file name
   * is reported whenever there are any, including when they are kept; the
   * user is asked only when neither flag is set, and an empty reply
   * (`None`) takes the default, yes.
   */
  method ShouldRemoveFragmentFiles(filenames: seq<string>, answerYes: bool, answerKeep: bool, reply: Option<bool>)
    returns (remove: bool, reported: seq<string>, prompted: bool)
    ensures filenames == [] ==> !remove && !prompted && reported == []
    ensures filenames != [] ==> reported == filenames
    ensures prompted <==> filenames != [] && !answerKeep && !answerYes
    ensures answerKeep ==> !remove
    ensures filenames != [] && !answerKeep && answerYes ==> remove
    ensures filenames != [] && !answerKeep && !answerYes ==> remove == reply.GetOr(true)
  {
    if filenames == [] {
      return false, [], false;
    }
    reported := [];
    var i := 0;
    while i < |filenames|
      invariant 0 <= i <= |filenames|
      invariant reported == filenames[..i]
    {
      reported := reported + [filenames[i]];
      i := i + 1;
    }
    if answerKeep {
      return false, reported, false;
    }
    prompted := !answerYes;
    remove := answerYes || reply.GetOr(true);
  }

  // ---------------------------------------------------------------------------
  // The build command

  /** What the command-line parser handed to the build command. */
  datatype Options = Options(
    draft: bool,
    name: Option<string>,
    version: Option<string>,
    date: Option<string>,
    answerYes: bool,
    answerKeep: bool)

  /**
   * What the outside world answers: the detected version and project name,
   * today's date, the fragment files found, and the user's reply to the
   * removal prompt (`None` for pressing Enter).
   */
  datatype Environment = Environment(
    detectedVersion: string,
    detectedName: string,
    today: string,
    fragmentFilenames: seq<string>,
    reply: Option<bool>)

  /** The externally visible steps of one build. */
  datatype Effect =
    | FindFragments(location: FragmentLocation)
    | DetectVersion
    | DetectName
    | ReadClock
    | ShowDraft(content: string)
    | AppendToNewsfile(file: string, startString: string, topLine: string, content: string, singleFile: bool)
    | StageNewsfile(file: string)
    | ReportFile(name: string)
    | AskConfirmation
    | RemoveFiles(files: seq<string>)
  {
    /** An effect that touches the news file, git or the fragments, or asks the user. */
    predicate Commits() {
      AppendToNewsfile? || StageNewsfile? || ReportFile? || AskConfirmation? || RemoveFiles?
    }
  }

  function ResolveVersionData(opts: Options, config: Config, env: Environment): VersionData {
    VersionData(
      ResolveName(opts.name, config.name, config.package, env.detectedName),
      ResolveVersion(opts.version, config.version, env.detectedVersion),
      ResolveDate(opts.date, env.today))
  }

  function Reports(filenames: seq<string>): seq<Effect>
  {
    seq(|filenames|, i requires 0 <= i < |filenames| => ReportFile(filenames[i]))
  }

  /** The effects of the removal step: reports, the question if one is asked, and the removal if decided. */
  function RemovalEffects(filenames: seq<string>, answerYes: bool, answerKeep: bool, reply: Option<bool>): (r: seq<Effect>)
    ensures filenames == [] ==> r == []
    ensures |r| >= |filenames| && r[..|filenames|] == Reports(filenames)
    ensures AskConfirmation in r <==> filenames != [] && !answerKeep && !answerYes
  {
    if filenames == [] then []
    else
      Reports(filenames)
      + (if !answerKeep && !answerYes then [AskConfirmation] else [])
      + (if !answerKeep && (answerYes || reply.GetOr(true)) then [RemoveFiles(filenames)] else [])
  }

  /** Fragments are removed at most once, last, and only with a confirmed decision. */
  lemma RemovalIsLast(filenames: seq<string>, answerYes: bool, answerKeep: bool, reply: Option<bool>)
    ensures var r := RemovalEffects(filenames, answerYes, answerKeep, reply);
      && (RemoveFiles(filenames) in r <==> filenames != [] && !answerKeep && (answerYes || reply.GetOr(true)))
      && (forall i :: 0 <= i < |r| - 1 ==> !r[i].RemoveFiles?)
  {
  }

  /** The detector and clock consultations a build makes: only for values given neither on the command line nor in the configuration. */
  function LookupEffects(opts: Options, config: Config): (r: seq<Effect>)
    ensures DetectVersion in r <==> opts.version.None? && config.version.None?
    ensures DetectName in r <==> opts.name.None? && config.name == "" && config.package != ""
    ensures ReadClock in r <==> opts.date.None?
    ensures forall i :: 0 <= i < |r| ==> !r[i].Commits() && !r[i].ShowDraft?
  {
    (if opts.version.None? && config.version.None? then [DetectVersion] else [])
    + (if opts.name.None? && config.name == "" && config.package != "" then [DetectName] else [])
    + (if opts.date.None? then [ReadClock] else [])
  }

  /** The full trace of one build, as a function of its inputs. */
  function BuildTrace(opts: Options, config: Config, baseDirectory: string, env: Environment, render: bool -> string): (trace: seq<Effect>)
    requires |config.underlines| > 0
    ensures |trace| >= 2 && trace[0] == FindFragments(LocateFragments(baseDirectory, config))
    ensures opts.draft ==> trace[|trace| - 1].ShowDraft?
    ensures !opts.draft ==> forall e :: e in trace ==> !e.ShowDraft?
  {
    var vd := ResolveVersionData(opts, config, env);
    var plan := PlanTitle(config.titleFormat, vd);
    var content := AssembleContent(plan, config.underlines[0], render(plan.withFragments));
    var file := NewsFileName(config, vd);
    var head := [FindFragments(LocateFragments(baseDirectory, config))] + LookupEffects(opts, config);
    var removal := RemovalEffects(env.fragmentFilenames, opts.answerYes, opts.answerKeep, env.reply);
    RemovalShowsNothing(env.fragmentFilenames, opts.answerYes, opts.answerKeep, env.reply);
    head
    + if opts.draft then [ShowDraft(content)]
      else [AppendToNewsfile(file, config.startString, plan.topLine, content, config.singleFile), StageNewsfile(file)] + removal
  }

  /** A draft build shows the content last and writes, stages, reports, asks and removes nothing. */
  lemma DraftCommitsNothing(opts: Options, config: Config, baseDirectory: string, env: Environment, render: bool -> string)
    requires |config.underlines| > 0 && opts.draft
    ensures var trace := BuildTrace(opts, config, baseDirectory, env, render);
      var plan := PlanTitle(config.titleFormat, ResolveVersionData(opts, config, env));
      && trace[|trace| - 1] == ShowDraft(AssembleContent(plan, config.underlines[0], render(plan.withFragments)))
      && forall e :: e in trace ==> !e.Commits()
  {
  }

  /**
   * A real build shows nothing, appends the content to the news file, then
   * stages that file, then runs the removal step; nothing before the append
   * touches the news file, git or the fragments.
   */
  lemma WriteThenStageThenRemove(opts: Options, config: Config, baseDirectory: string, env: Environment, render: bool -> string)
    requires |config.underlines| > 0 && !opts.draft
    ensures var trace := BuildTrace(opts, config, baseDirectory, env, render);
      var vd := ResolveVersionData(opts, config, env);
      var plan := PlanTitle(config.titleFormat, vd);
      var content := AssembleContent(plan, config.underlines[0], render(plan.withFragments));
      var file := NewsFileName(config, vd);
      exists w :: 0 < w < |trace| - 1
           && (forall i :: 0 <= i < w ==> !trace[i].Commits())
           && trace[w] == AppendToNewsfile(file, config.startString, plan.topLine, content, config.singleFile)
           && trace[w + 1] == StageNewsfile(file)
           && trace[w + 2..] == RemovalEffects(env.fragmentFilenames, opts.answerYes, opts.answerKeep, env.reply)
  {
    var trace := BuildTrace(opts, config, baseDirectory, env, render);
    var vd := ResolveVersionData(opts, config, env);
    var plan := PlanTitle(config.titleFormat, vd);
    var content := AssembleContent(plan, config.underlines[0], render(plan.withFragments));
    var file := NewsFileName(config, vd);
    var commit := [AppendToNewsfile(file, config.startString, plan.topLine, content, config.singleFile), StageNewsfile(file)];
    var removal := RemovalEffects(env.fragmentFilenames, opts.answerYes, opts.answerKeep, env.reply);
    var head := [FindFragments(LocateFragments(baseDirectory, config))] + LookupEffects(opts, config);
    TraceOfRealBuild(opts, config, baseDirectory, env, render, head, commit, removal);
    LookupsCommitNothing(FindFragments(LocateFragments(baseDirectory, config)), LookupEffects(opts, config));
    CommitLayout(head, commit, removal);
    var w := |head|;
    assert 0 < w < |trace| - 1
           && (forall i :: 0 <= i < w ==> !trace[i].Commits())
           && trace[w] == commit[0]
           && trace[w + 1] == commit[1]
           && trace[w + 2..] == removal;
  }

  lemma LookupsCommitNothing(find: Effect, lookups: seq<Effect>)
    requires find.FindFragments?
    requires forall i :: 0 <= i < |lookups| ==> !lookups[i].Commits()
    ensures forall i :: 0 <= i < |[find] + lookups| ==> !([find] + lookups)[i].Commits()
  {
  }

  /** The three parts of a real build's trace: what precedes the append, the append and staging, and the removal step. */
  lemma TraceOfRealBuild(opts: Options, config: Config, baseDirectory: string, env: Environment, render: bool -> string,
                         head: seq<Effect>, commit: seq<Effect>, removal: seq<Effect>)
    requires |config.underlines| > 0 && !opts.draft
    requires head == [FindFragments(LocateFragments(baseDirectory, config))] + LookupEffects(opts, config)
    requires var vd := ResolveVersionData(opts, config, env);
      var plan := PlanTitle(config.titleFormat, vd);
      var file := NewsFileName(config, vd);
      commit == [AppendToNewsfile(file, config.startString, plan.topLine,
                                  AssembleContent(plan, config.underlines[0], render(plan.withFragments)), config.singleFile),
                 StageNewsfile(file)]
    requires removal == RemovalEffects(env.fragmentFilenames, opts.answerYes, opts.answerKeep, env.reply)
    ensures BuildTrace(opts, config, baseDirectory, env, render) == head + commit + removal
  {
  }

  lemma CommitLayout<T>(head: seq<T>, commit: seq<T>, tail: seq<T>)
    requires |commit| == 2
    ensures var s := head + commit + tail;
      && (forall i :: 0 <= i < |head| ==> s[i] == head[i])
      && s[|head|] == commit[0] && s[|head| + 1] == commit[1]
      && s[|head| + 2..] == tail
  {
  }

  lemma RemovalShowsNothing(filenames: seq<string>, answerYes: bool, answerKeep: bool, reply: Option<bool>)
    ensures forall e :: e in RemovalEffects(filenames, answerYes, answerKeep, reply) ==> !e.ShowDraft?
  {
  }

  /**
   * The name, version and date steps of the build, in the source's order,
   * with the detector and clock consultations they make.
   */
  method ResolveProjectData(opts: Options, config: Config, env: Environment)
    returns (vd: VersionData, lookups: seq<Effect>)
    ensures vd == ResolveVersionData(opts, config, env)
    ensures lookups == LookupEffects(opts, config)
  {
    var versionLookup, nameLookup, dateLookup := [], [], [];
    var projectVersion := opts.version;
    if projectVersion.None? {
      projectVersion := config.version;
      if projectVersion.None? {
        versionLookup := [DetectVersion];
        projectVersion := Some(Strip(env.detectedVersion));
      }
    }

    var projectName := opts.name;
    if projectName.None? {
      projectName := Some(config.name);
      if projectName.value == "" {
        if config.package != "" {
          nameLookup := [DetectName];
          projectName := Some(env.detectedName);
        } else {
          projectName := Some("");
        }
      }
    }

    var projectDate := opts.date;
    if projectDate.None? {
      dateLookup := [ReadClock];
      projectDate := Some(Strip(env.today));
    }

    lookups := versionLookup + nameLookup + dateLookup;
    vd := VersionData(projectName.value, projectVersion.value, projectDate.value);
  }

  /** The removal step as the build runs it: the decision, the reports and prompt, then the removal. */
  method RemovalStep(filenames: seq<string>, answerYes: bool, answerKeep: bool, reply: Option<bool>)
    returns (effects: seq<Effect>)
    ensures effects == RemovalEffects(filenames, answerYes, answerKeep, reply)
  {
    var remove, reported, prompted := ShouldRemoveFragmentFiles(filenames, answerYes, answerKeep, reply);
    effects := Reports(reported) + (if prompted then [AskConfirmation] else []);
    if remove {
      effects := effects + [RemoveFiles(filenames)];
    }
  }

  /**
   * One run of the build command: the fragment lookup, the name, version and
   * date steps, the title decision and content; then either the draft is shown
   * and the run stops, or the content is appended to the news file, the file is
   * staged, and the removal step runs.
   */
  method RunBuild(opts: Options, config: Config, baseDirectory: string, env: Environment, render: bool -> string)
    returns (trace: seq<Effect>)
    requires |config.underlines| > 0
    ensures trace == BuildTrace(opts, config, baseDirectory, env, render)
  {
    var location := LocateFragments(baseDirectory, config);
    trace := [FindFragments(location)];

    var vd, lookups := ResolveProjectData(opts, config, env);
    trace := trace + lookups;
    var plan := PlanTitle(config.titleFormat, vd);
    var rendered := render(plan.withFragments);
    var content := AssembleContent(plan, config.underlines[0], rendered);

    if opts.draft {
      trace := trace + [ShowDraft(content)];
      return;
    }

    var newsFile := config.filename;
    if !config.singleFile {
      newsFile := Format(newsFile, VersionFields(vd));
    }
    assert newsFile == NewsFileName(config, vd);
    var removal := RemovalStep(env.fragmentFilenames, opts.answerYes, opts.answerKeep, env.reply);
    trace := trace + [AppendToNewsfile(newsFile, config.startString, plan.topLine, content, config.singleFile), StageNewsfile(newsFile)]
      + removal;
  }
}
