/**
 The project state cache (`Pixi` in src/managers/pixiAPI.ts): one manifest's
 snapshot of `pixi info --json`, the queries derived from it, the validator of
 new environment names and the environment-creation workflow.

 The outcome of each CLI call, the user's picks in the quick pick and the
 input box, and the configured executable are inputs.
 */
module PixiApi {
  import opened Outcomes
  import opened Strings
  import opened SortedStrings

  // ---------------------------------------------------------------------------
  // The snapshot reported by `pixi info --json`
  // ---------------------------------------------------------------------------

  datatype ProjectIdentity = ProjectIdentity(name: string)

  datatype EnvironmentInfo = EnvironmentInfo(
    name: string,
    features: seq<string>,
    tasks: seq<string>,
    dependencies: seq<string>,
    pypiDependencies: seq<string>,
    prefix: string)

  /** `project_info` is absent when the manifest does not describe a valid project. */
  datatype PixiInfo = PixiInfo(projectInfo: Option<ProjectIdentity>, environmentsInfo: seq<EnvironmentInfo>)

  /** A `Pixi` object: its manifest and its snapshot, `None` while it is `null`. */
  datatype Project = Project(manifestPath: string, pixiInfo: Option<PixiInfo>)

  // ---------------------------------------------------------------------------
  // Synchronisation (`initialize` and `getPixiInfo`)
  // ---------------------------------------------------------------------------

  /** The literal words of the command lines the handle builds are plain tokens. */
  lemma CommandTokens()
    ensures IsToken("info") && IsToken("--manifest-path") && IsToken("--json")
    ensures IsToken("project") && IsToken("environment") && IsToken("add") && IsToken("--feature")
  {
  }

  /** The command line of the info query, `<exe> info --manifest-path <path> --json`, word by word. */
  function InfoCommand(exe: string, manifestPath: string): string
  {
    exe + " " + "info" + " " + "--manifest-path" + " " + manifestPath + " " + "--json"
  }

  /** The info query passes the executable, the manifest path and the `--json` flag as separate words. */
  lemma InfoCommandWords(exe: string, manifestPath: string)
    requires IsToken(exe) && IsToken(manifestPath)
    ensures Words(InfoCommand(exe, manifestPath)) == [exe, "info", "--manifest-path", manifestPath, "--json"]
  {
    CommandTokens();
    FiveWords(exe, "info", "--manifest-path", manifestPath, "--json");
  }

  /**
   The manifest path is interpolated unquoted, so a path with a blank in it
   reaches `pixi` as two separate words.
   */
  lemma InfoCommandSplitsPath(exe: string, left: string, right: string)
    requires IsToken(exe) && IsToken(left) && IsToken(right)
    ensures Words(InfoCommand(exe, left + " " + right)) == [exe, "info", "--manifest-path", left, right, "--json"]
  {
    CommandTokens();
    SixWords(exe, "info", "--manifest-path", left, right, "--json");
    assert InfoCommand(exe, left + " " + right)
        == exe + " " + "info" + " " + "--manifest-path" + " " + left + " " + right + " " + "--json";
  }

  /**
   How one run of the info query ends: the command failed or timed out, its
   output was not JSON, or it parsed to a document (`None` for JSON `null`).
   */
  datatype InfoOutcome = CommandFailed(reason: string) | ParseFailed | Parsed(document: Option<PixiInfo>)

  /** What `initialize` logs once the query is over. */
  datatype SyncReport = FailedToGet | MissingProjectInfo | Logged

  /** `getPixiInfo`: stores the parsed document, whatever it is, and returns it; returns `null` on failure. */
  function GetPixiInfo(p: Project, outcome: InfoOutcome): (r: (Project, Option<PixiInfo>))
    ensures r.0.manifestPath == p.manifestPath
    ensures r.1.None? <==> !outcome.Parsed? || outcome.document.None?
    ensures !outcome.Parsed? ==> r.0 == p
    ensures outcome.Parsed? ==> r.0.pixiInfo == outcome.document && r.1 == outcome.document
  {
    match outcome
    case Parsed(document) => (p.(pixiInfo := document), document)
    case _ => (p, None)
  }

  /**
   `initialize`: refreshes the snapshot and reports on it. A failed query keeps
   the previous snapshot; a successful one replaces it wholesale, also when
   the new document lacks `project_info`, which is only reported.
   */
  function Synchronize(p: Project, outcome: InfoOutcome): (r: (Project, SyncReport))
    ensures r.0.manifestPath == p.manifestPath
    ensures !outcome.Parsed? ==> r.0 == p
    ensures outcome.Parsed? ==> r.0.pixiInfo == outcome.document
    ensures r.1 == FailedToGet <==> !outcome.Parsed? || outcome.document.None?
    ensures r.1 == MissingProjectInfo <==>
              outcome.Parsed? && outcome.document.Some? && outcome.document.value.projectInfo.None?
  {
    var (q, info) := GetPixiInfo(p, outcome);
    if info.None? then (q, FailedToGet)
    else if info.value.projectInfo.None? then (q, MissingProjectInfo)
    else (q, Logged)
  }

  /** Runs `initialize` once per given outcome, in order. */
  function SynchronizeAll(p: Project, outcomes: seq<InfoOutcome>): Project
    decreases |outcomes|
  {
    if |outcomes| == 0 then p else SynchronizeAll(Synchronize(p, outcomes[0]).0, outcomes[1..])
  }

  /** The document of the last successful query, or `current` when every query failed. */
  function LatestSnapshot(current: Option<PixiInfo>, outcomes: seq<InfoOutcome>): Option<PixiInfo>
    decreases |outcomes|
  {
    if |outcomes| == 0 then current
    else if outcomes[|outcomes| - 1].Parsed? then outcomes[|outcomes| - 1].document
    else LatestSnapshot(current, outcomes[..|outcomes| - 1])
  }

  lemma {:induction false} SynchronizeAllAppend(p: Project, outcomes: seq<InfoOutcome>, last: InfoOutcome)
    ensures SynchronizeAll(p, outcomes + [last]) == Synchronize(SynchronizeAll(p, outcomes), last).0
    decreases |outcomes|
  {
    if |outcomes| == 0 {
      assert outcomes + [last] == [last];
    } else {
      assert (outcomes + [last])[1..] == outcomes[1..] + [last];
      SynchronizeAllAppend(Synchronize(p, outcomes[0]).0, outcomes[1..], last);
    }
  }

  /**
   After any series of synchronisations the snapshot is the document of the
   last successful one (no merging of documents), and it is the one the
   project started with when every query failed.
   */
  lemma {:induction false} SynchronizeAllKeepsLatest(p: Project, outcomes: seq<InfoOutcome>)
    ensures SynchronizeAll(p, outcomes) == p.(pixiInfo := LatestSnapshot(p.pixiInfo, outcomes))
    ensures (forall i :: 0 <= i < |outcomes| ==> !outcomes[i].Parsed?) ==> SynchronizeAll(p, outcomes) == p
    decreases |outcomes|
  {
    if |outcomes| > 0 {
      var front := outcomes[..|outcomes| - 1];
      var last := outcomes[|outcomes| - 1];
      assert outcomes == front + [last];
      SynchronizeAllAppend(p, front, last);
      SynchronizeAllKeepsLatest(p, front);
      assert forall i :: 0 <= i < |front| ==> front[i] == outcomes[i];
    }
  }

  // ---------------------------------------------------------------------------
  // Queries
  // ---------------------------------------------------------------------------

  /** `EnvironmentNames()`: the environments' names in snapshot order, `[]` without a snapshot. */
  function EnvironmentNames(p: Project): (names: seq<string>)
    ensures p.pixiInfo.None? ==> names == []
    ensures p.pixiInfo.Some? ==> |names| == |p.pixiInfo.value.environmentsInfo|
    ensures p.pixiInfo.Some? ==>
              forall i :: 0 <= i < |names| ==> names[i] == p.pixiInfo.value.environmentsInfo[i].name
  {
    match p.pixiInfo
    case None => []
    case Some(info) => seq(|info.environmentsInfo|, i requires 0 <= i < |info.environmentsInfo| => info.environmentsInfo[i].name)
  }

  /** The `name` getter: the project's name, or "" when the snapshot or its `project_info` is missing. */
  function Name(p: Project): (name: string)
    ensures p.pixiInfo.Some? && p.pixiInfo.value.projectInfo.Some? ==> name == p.pixiInfo.value.projectInfo.value.name
    ensures p.pixiInfo.None? || p.pixiInfo.value.projectInfo.None? ==> name == ""
  {
    if p.pixiInfo.Some? && p.pixiInfo.value.projectInfo.Some? then p.pixiInfo.value.projectInfo.value.name else ""
  }

  /** `f` is a feature of some environment of the snapshot. */
  predicate HasFeature(info: Option<PixiInfo>, f: string)
  {
    && info.Some?
    && exists i :: 0 <= i < |info.value.environmentsInfo| && f in info.value.environmentsInfo[i].features
  }

  /** Adds every feature of `envs`, environment by environment, to the ascending `acc`. */
  function CollectFeatures(acc: seq<string>, envs: seq<EnvironmentInfo>): seq<string>
    decreases |envs|
  {
    if |envs| == 0 then acc else CollectFeatures(InsertAll(acc, envs[0].features), envs[1..])
  }

  lemma {:induction false} CollectFeaturesSorted(acc: seq<string>, envs: seq<EnvironmentInfo>)
    requires StrictlySorted(acc)
    ensures StrictlySorted(CollectFeatures(acc, envs))
    ensures forall f :: f in CollectFeatures(acc, envs) <==>
                        f in acc || exists i :: 0 <= i < |envs| && f in envs[i].features
    decreases |envs|
  {
    if |envs| > 0 {
      var acc' := InsertAll(acc, envs[0].features);
      InsertAllSorted(acc, envs[0].features);
      CollectFeaturesSorted(acc', envs[1..]);
      forall f ensures f in CollectFeatures(acc, envs) <==>
                       f in acc || exists i :: 0 <= i < |envs| && f in envs[i].features
      {
        assert f in acc' <==> f in Elements(acc');
        assert f in acc <==> f in Elements(acc);
        assert f in envs[0].features <==> f in Elements(envs[0].features);
        if exists i :: 0 <= i < |envs[1..]| && f in envs[1..][i].features {
          var i :| 0 <= i < |envs[1..]| && f in envs[1..][i].features;
          assert f in envs[i + 1].features;
        }
        if exists i :: 0 <= i < |envs| && f in envs[i].features {
          var i :| 0 <= i < |envs| && f in envs[i].features;
          if i > 0 {
            assert f in envs[1..][i - 1].features;
          }
        }
      }
    }
  }

  /**
   The `featureNames` getter: the features of all environments, each once, in
   ascending order; `[]` without a snapshot.
   */
  function FeatureNames(p: Project): (features: seq<string>)
    ensures StrictlySorted(features)
    ensures forall f :: f in features <==> HasFeature(p.pixiInfo, f)
  {
    match p.pixiInfo
    case None => []
    case Some(info) =>
      CollectFeaturesSorted([], info.environmentsInfo);
      CollectFeatures([], info.environmentsInfo)
  }

  /**
   The feature list depends only on which features occur: not on the order of
   the environments, of their features, or on repetitions.
   */
  lemma FeatureNamesIgnoreOrder(p: Project, q: Project)
    requires forall f :: HasFeature(p.pixiInfo, f) <==> HasFeature(q.pixiInfo, f)
    ensures FeatureNames(p) == FeatureNames(q)
  {
    var a, b := FeatureNames(p), FeatureNames(q);
    assert Elements(a) == Elements(b) by {
      forall f ensures f in Elements(a) <==> f in Elements(b) {
        assert f in Elements(a) <==> f in a;
        assert f in Elements(b) <==> f in b;
      }
    }
    StrictlySortedUnique(a, b);
  }

  // ---------------------------------------------------------------------------
  // Validation of a new environment name (`validateInput`)
  // ---------------------------------------------------------------------------

  datatype Severity = Error | Warning

  /** What the validator returns: `null`, a bare message, or a message with a severity. */
  datatype Validation = NoMessage | PlainMessage(text: string) | SeverityMessage(text: string, severity: Severity)

  const NamePatternMessage: string := "Environment name must contain only lowercase letters, numbers, and hyphens"

  /** A character of the class `[a-z0-9\-]`. */
  predicate IsNameChar(c: char)
  {
    ('a' <= c <= 'z') || ('0' <= c <= '9') || c == '-'
  }

  /** `/^[a-z0-9\-]+$/.test(value)`. */
  predicate MatchesNamePattern(value: string)
  {
    |value| > 0 && forall i :: 0 <= i < |value| ==> IsNameChar(value[i])
  }

  /** `names.find((env) => value.startsWith(env))`: the first existing name that is a prefix of `value`. */
  function SimilarName(names: seq<string>, value: string): (r: Option<string>)
    ensures r.None? <==> forall i :: 0 <= i < |names| ==> !(names[i] <= value)
    ensures r.Some? ==> exists i :: && 0 <= i < |names| && names[i] == r.value && r.value <= value
                                    && forall j :: 0 <= j < i ==> !(names[j] <= value)
    decreases |names|
  {
    if |names| == 0 then None
    else if names[0] <= value then Some(names[0])
    else
      var r := SimilarName(names[1..], value);
      assert forall i :: 1 <= i < |names| ==> names[i] == names[1..][i - 1];
      if r.Some? then
        var k :| && 0 <= k < |names[1..]| && names[1..][k] == r.value && r.value <= value
                 && forall j :: 0 <= j < k ==> !(names[1..][j] <= value);
        assert names[k + 1] == r.value;
        assert forall j :: 0 <= j < k + 1 ==> !(names[j] <= value) by {
          forall j | 0 <= j < k + 1 ensures !(names[j] <= value) {
            if j > 0 {
              assert names[j] == names[1..][j - 1];
            }
          }
        }
        r
      else
        r
  }

  /** The warning case fires when the first prefix-name found is non-empty (an empty one is falsy). */
  predicate WarnsSimilar(names: seq<string>, value: string)
  {
    var similar := SimilarName(names, value);
    similar.Some? && similar.value != ""
  }

  /**
   `validateInput`, given the names `EnvironmentNames()` returned: the first
   of these rules that applies decides — the name exists (error), an existing
   name is a prefix of it (warning), it does not match `^[a-z0-9-]+$` (bare
   message); otherwise it is valid.
   */
  function ValidateInput(names: seq<string>, value: string): (r: Validation)
    ensures (r.SeverityMessage? && r.severity == Error) <==> value in names
    ensures (r.SeverityMessage? && r.severity == Warning) <==> value !in names && WarnsSimilar(names, value)
    ensures r.PlainMessage? <==> value !in names && !WarnsSimilar(names, value) && !MatchesNamePattern(value)
    ensures r.NoMessage? <==> value !in names && !WarnsSimilar(names, value) && MatchesNamePattern(value)
    ensures r.PlainMessage? ==> r.text == NamePatternMessage
  {
    if value in names then
      SeverityMessage("Error: Environment name " + value + " already exists", Error)
    else
      var similar := SimilarName(names, value);
      if similar.Some? && similar.value != "" then
        SeverityMessage("Warning: Environment name '" + value + "' is similar to an existing environment named: '"
                        + similar.value + "'", Warning)
      else if !MatchesNamePattern(value) then
        PlainMessage(NamePatternMessage)
      else
        NoMessage
  }

  /**
   When no existing name is empty, a name is accepted exactly when it is new,
   extends no existing name, and matches the pattern.
   */
  lemma ValidateInputAccepts(names: seq<string>, value: string)
    requires "" !in names
    ensures ValidateInput(names, value).NoMessage? <==>
              && value !in names
              && (forall i :: 0 <= i < |names| ==> !(names[i] <= value))
              && MatchesNamePattern(value)
  {
    var similar := SimilarName(names, value);
    if similar.Some? {
      var k :| 0 <= k < |names| && names[k] == similar.value;
    }
  }

  /** An existing name that is a prefix outranks the pattern: the warning wins even for an invalid name. */
  lemma PrefixWarningOutranksPattern(names: seq<string>, value: string, i: nat)
    requires "" !in names
    requires i < |names| && names[i] <= value && value !in names
    ensures ValidateInput(names, value).SeverityMessage?
    ensures ValidateInput(names, value).severity == Warning
  {
    var similar := SimilarName(names, value);
    var k :| 0 <= k < |names| && names[k] == similar.value;
  }

  /** With existing names `dev` and `test`: `dev` is refused as a duplicate. */
  lemma ValidateInputExistingName()
    ensures ValidateInput(["dev", "test"], "dev") == SeverityMessage("Error: Environment name dev already exists", Error)
  {
  }

  /** With existing names `dev` and `test`: `dev2` draws the warning. */
  lemma ValidateInputExtendedName()
    ensures ValidateInput(["dev", "test"], "dev2").SeverityMessage?
    ensures ValidateInput(["dev", "test"], "dev2").severity == Warning
  {
    assert "dev" <= "dev2";
  }

  /** With existing names `dev` and `test`: `dev_X` draws the warning although it fails the pattern. */
  lemma ValidateInputExtendedInvalidName()
    ensures ValidateInput(["dev", "test"], "dev_X").SeverityMessage?
    ensures ValidateInput(["dev", "test"], "dev_X").severity == Warning
    ensures !MatchesNamePattern("dev_X")
  {
    assert "dev" <= "dev_X";
    assert !IsNameChar("dev_X"[3]);
  }

  /** With existing names `dev` and `test`: `Dev_1` fails the pattern. */
  lemma ValidateInputInvalidName()
    ensures ValidateInput(["dev", "test"], "Dev_1") == PlainMessage(NamePatternMessage)
  {
    var names := ["dev", "test"];
    assert "Dev_1"[0] == 'D';
    assert !("dev" <= "Dev_1") && !("test" <= "Dev_1");
    assert SimilarName(names, "Dev_1") == None;
    assert !IsNameChar("Dev_1"[0]);
  }

  /** With existing names `dev` and `test`: `prod` is accepted. */
  lemma ValidateInputNewName()
    ensures ValidateInput(["dev", "test"], "prod") == NoMessage
  {
    var names := ["dev", "test"];
    assert "dev"[0] != "prod"[0] && "test"[0] != "prod"[0];
    assert !("dev" <= "prod") && !("test" <= "prod");
    assert SimilarName(names, "prod") == None;
    assert forall i :: 0 <= i < 4 ==> IsNameChar("prod"[i]);
  }

  // ---------------------------------------------------------------------------
  // The creation workflow (`createEnvironment`)
  // ---------------------------------------------------------------------------

  /** The text `" --feature "`, which precedes the picked features and separates them. */
  const FeatureSeparator: string := " " + "--feature" + " "

  /** `<exe> project environment add --manifest-path <path>`, word by word. */
  function AddCommandHead(exe: string, manifestPath: string): string
  {
    exe + " " + "project" + " " + "environment" + " " + "add" + " " + "--manifest-path" + " " + manifestPath
  }

  /** The command line `createEnvironment` builds. */
  function CreateCommand(exe: string, manifestPath: string, features: seq<string>, name: string): string
  {
    AddCommandHead(exe, manifestPath) + FeatureSeparator + Join(features, FeatureSeparator) + " " + name
  }

  /** How running a command line with a timeout ends. */
  datatype ShellOutcome = ShellSucceeded(output: string) | ShellFailed(error: string)

  /** What the workflow did: stopped before the command, or ran it with the given result. */
  datatype Creation = Aborted | Created(command: string, output: string) | CreationFailed(command: string, notification: string)

  const CreationErrorPrefix: string := "Error creating environment: "

  /**
   `createEnvironment`: `picked` is the quick pick's answer over `FeatureNames(p)`
   (`None` when dismissed), `entered` the input box's answer (`None` when
   dismissed) and `shell` how the command would end. No command runs when the
   pick is dismissed or the name is missing or empty; an empty pick still
   proceeds. A failing command is reported to the user and not rethrown.
   */
  function CreateEnvironment(p: Project, exe: string, picked: Option<seq<string>>, entered: Option<string>,
                             shell: ShellOutcome): (r: Creation)
    ensures r.Aborted? <==> picked.None? || entered.None? || entered.value == ""
    ensures !r.Aborted? ==> r.command == CreateCommand(exe, p.manifestPath, picked.value, entered.value)
    ensures r.Created? <==> !r.Aborted? && shell.ShellSucceeded?
    ensures r.Created? ==> r.output == shell.output
    ensures r.CreationFailed? ==> r.notification == CreationErrorPrefix + shell.error
  {
    if picked.None? then Aborted
    else if entered.None? || entered.value == "" then Aborted
    else
      var cmd := CreateCommand(exe, p.manifestPath, picked.value, entered.value);
      match shell
      case ShellSucceeded(out) => Created(cmd, out)
      case ShellFailed(err) => CreationFailed(cmd, CreationErrorPrefix + err)
  }

  /** The leading words of every `project environment add` command line. */
  function AddArguments(exe: string, manifestPath: string): seq<string>
  {
    [exe, "project", "environment", "add", "--manifest-path", manifestPath]
  }

  /** One `--feature f` pair per feature, in order. */
  function FeatureFlags(features: seq<string>): seq<string>
    decreases |features|
  {
    if |features| == 0 then [] else ["--feature", features[0]] + FeatureFlags(features[1..])
  }

  /** One " --feature f" option per feature, in order. */
  function FeatureOptions(features: seq<string>): string
    decreases |features|
  {
    if |features| == 0 then "" else FeatureSeparator + features[0] + FeatureOptions(features[1..])
  }

  /**
   The command line as intended: the `--feature` options only for the
   features picked, so the environment name always stays the last word.
   */
  function CreateCommandCorrected(exe: string, manifestPath: string, features: seq<string>, name: string): string
  {
    AddCommandHead(exe, manifestPath) + FeatureOptions(features) + " " + name
  }

  lemma AddArgumentsWords(exe: string, manifestPath: string)
    requires IsToken(exe) && IsToken(manifestPath)
    ensures Words(AddCommandHead(exe, manifestPath)) == AddArguments(exe, manifestPath)
  {
    CommandTokens();
    SixWords(exe, "project", "environment", "add", "--manifest-path", manifestPath);
  }

  lemma SpliceSeparator(head: string, space: string, flag: string, tail: string)
    ensures head + (space + flag + space) + tail == head + space + flag + space + tail
  {
  }

  lemma FeatureOptionWords(head: string, f: string)
    requires IsToken(f)
    ensures Words(head + FeatureSeparator + f) == Words(head) + ["--feature", f]
  {
    CommandTokens();
    SpliceSeparator(head, " ", "--feature", f);
    WordsSpace(head, "--feature");
    WordsSpace(head + " " + "--feature", f);
    WordsToken("--feature");
    WordsToken(f);
  }

  lemma Regroup(head: string, a: string, b: string, c: string, d: string, e: string)
    ensures head + (a + b + c) + d + e == (head + a + b) + c + d + e
  {
  }

  lemma FeatureOptionsUnfold(head: string, features: seq<string>, name: string)
    requires |features| > 0
    ensures head + FeatureOptions(features) + " " + name
            == (head + FeatureSeparator + features[0]) + FeatureOptions(features[1..]) + " " + name
  {
    var rest := FeatureOptions(features[1..]);
    assert FeatureOptions(features) == FeatureSeparator + features[0] + rest;
    Regroup(head, FeatureSeparator, features[0], rest, " ", name);
  }

  lemma {:induction false} FeatureOptionsWords(head: string, features: seq<string>, name: string)
    requires forall i :: 0 <= i < |features| ==> IsToken(features[i])
    ensures Words(head + FeatureOptions(features) + " " + name) == Words(head) + FeatureFlags(features) + Words(name)
    decreases |features|
  {
    if |features| == 0 {
      assert head + FeatureOptions(features) + " " + name == head + " " + name;
      WordsSpace(head, name);
    } else {
      var head' := head + FeatureSeparator + features[0];
      FeatureOptionsUnfold(head, features, name);
      FeatureOptionsWords(head', features[1..], name);
      FeatureOptionWords(head, features[0]);
    }
  }

  /** The corrected command line always ends in the feature options followed by the name. */
  lemma CorrectedCommandWords(exe: string, manifestPath: string, features: seq<string>, name: string)
    requires IsToken(exe) && IsToken(manifestPath) && IsToken(name)
    requires forall i :: 0 <= i < |features| ==> IsToken(features[i])
    ensures Words(CreateCommandCorrected(exe, manifestPath, features, name))
            == AddArguments(exe, manifestPath) + FeatureFlags(features) + [name]
  {
    FeatureOptionsWords(AddCommandHead(exe, manifestPath), features, name);
    AddArgumentsWords(exe, manifestPath);
    WordsToken(name);
  }

  lemma {:induction false} JoinedFeatures(features: seq<string>)
    requires |features| > 0
    ensures FeatureSeparator + Join(features, FeatureSeparator) == FeatureOptions(features)
    decreases |features|
  {
    if |features| > 1 {
      JoinedFeatures(features[1..]);
    }
  }

  /** With no feature picked, the name follows the `--feature` option directly. */
  lemma NoFeatureWords(head: string, name: string)
    requires IsToken(name)
    ensures Words(head + FeatureSeparator + Join([], FeatureSeparator) + " " + name) == Words(head) + ["--feature", name]
  {
    CommandTokens();
    var flagged := head + " " + "--feature";
    assert Join([], FeatureSeparator) == "";
    SpliceSeparator(head, " ", "--feature", "");
    assert head + FeatureSeparator + "" == flagged + " " + "";
    WordsSpace(flagged + " " + "", name);
    WordsSpace(flagged, "");
    WordsSpace(head, "--feature");
    WordsToken("--feature");
    WordsToken(name);
  }

  /** With at least one feature picked, the command line as written is the intended one. */
  lemma CreateCommandAgrees(exe: string, manifestPath: string, features: seq<string>, name: string)
    requires |features| > 0
    ensures CreateCommand(exe, manifestPath, features, name) == CreateCommandCorrected(exe, manifestPath, features, name)
  {
    JoinedFeatures(features);
    var head := AddCommandHead(exe, manifestPath);
    assert CreateCommand(exe, manifestPath, features, name)
           == head + (FeatureSeparator + Join(features, FeatureSeparator)) + " " + name;
  }

  /** With no feature picked, the name is taken as the value of `--feature`. */
  lemma EmptyPickCommandWords(exe: string, manifestPath: string, name: string)
    requires IsToken(exe) && IsToken(manifestPath) && IsToken(name)
    ensures Words(CreateCommand(exe, manifestPath, [], name)) == AddArguments(exe, manifestPath) + FeatureFlags([name])
  {
    AddArgumentsWords(exe, manifestPath);
    NoFeatureWords(AddCommandHead(exe, manifestPath), name);
    assert FeatureFlags([name]) == ["--feature", name];
  }

  /**
   The command line as written. With at least one feature it is the intended
   one; with none, "--feature" is followed by the name, which then reads as a
   feature and leaves the command without an environment name.
   */
  lemma CreateCommandWords(exe: string, manifestPath: string, features: seq<string>, name: string)
    requires IsToken(exe) && IsToken(manifestPath) && IsToken(name)
    requires forall i :: 0 <= i < |features| ==> IsToken(features[i])
    ensures |features| > 0 ==>
              Words(CreateCommand(exe, manifestPath, features, name))
              == AddArguments(exe, manifestPath) + FeatureFlags(features) + [name]
    ensures |features| == 0 ==>
              Words(CreateCommand(exe, manifestPath, features, name))
              == AddArguments(exe, manifestPath) + FeatureFlags([name])
  {
    if |features| > 0 {
      CreateCommandAgrees(exe, manifestPath, features, name);
      CorrectedCommandWords(exe, manifestPath, features, name);
    } else {
      EmptyPickCommandWords(exe, manifestPath, name);
    }
  }
}
