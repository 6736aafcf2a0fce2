# pixi-vscode2 core, modelled in Dafny

pixi-vscode2 is a VS Code extension that exposes the environments of
[pixi](https://pixi.sh) projects to the Python Environments extension. This
project models its core as pure functions over immutable datatypes and proves
properties of them:

- **Project locator** (`pixi_finder.dfy`, module `PixiFinder`): each
  `pixi.lock` under a workspace folder marks a project. Its manifest is the
  `pixi.toml` beside it, or else the `pyproject.toml` beside it.
- **Project handle** (`pixi_api.dfy`, module `PixiApi`). It covers:
  - the `pixi info --manifest-path … --json` snapshot and how each outcome of
    that query updates it;
  - the environment-name and feature-name queries;
  - the validator of the new-environment input box;
  - the `pixi project environment add` command line that `createEnvironment`
    builds, including the argument vector the shell makes of it.
- **Environment registry** (`environment_manager.dfy`, module
  `EnvironmentManager`). It covers:
  - the one-shot `initialize`, guarded by a deferred, which flattens every
    project's environments into descriptors;
  - the scope dispatch of `getEnvironments`;
  - `refresh`, and the operations that only throw.
- **Deferred** (`deferred.dfy`, module `Deferreds`): a promise together with
  its `resolved`, `rejected` and `completed` flags. The first settlement wins.
- **Package manager** (`package_manager.dfy`, module `PackageManager`):
  `getChanges` and the operations that always throw.
- **Support modules**:
  - `Outcomes`: `Option`, `Result`, and `Call`, the observed outcome of an
    awaited call: returned, threw, or still pending forever.
  - `Strings`: `join`, the default `sort` order, and shell word splitting.
  - `SortedStrings`: what `Array.from(new Set(..)).sort()` produces.
  - `Config`: the configured executable.

Asynchrony is modelled by outcome. A call that awaits a promise nobody settles
is `Pending`. The results of external commands, the user's picks and the
existence of files are inputs to the functions.

Behaviour of the code that the model keeps, and that a reader might not expect:

- **The locator does not isolate failures.** `findPixiProjects` combines every
  lookup with `Promise.all` (src/managers/pixi_finder.ts:9-17), so one lock
  file without a manifest fails the whole search.
- **A snapshot without `project_info` is kept.** `initialize` only logs a
  warning for it (src/managers/pixiAPI.ts:39-41). The snapshot was already
  stored by `getPixiInfo` (src/managers/pixiAPI.ts:134), so its environments
  are still listed.
- **The "global" scope is always empty.** The filter callback returns nothing
  (src/managers/pixiEnvironmentManager.ts:167-169); see Finding 2.
- **`create` and the other lifecycle operations throw.** Only
  `initialize`, `getEnvironments` and `refresh` do anything
  (src/managers/pixiEnvironmentManager.ts:127-207).
- **Repeated `initialize` calls never return.** The stored deferred is never
  settled (src/managers/pixiEnvironmentManager.ts:70-74); see Finding 1.
- **The run and activation commands use the bare `pixi`.** They ignore the
  configured executable path (src/managers/pixiEnvironmentManager.ts:105-113).

## Model

| member | source | states |
|---|---|---|
| Config.ExecutablePath | src/config.ts:3-7 | The executable is never empty: it is the configured path when that is non-empty, otherwise `pixi`. |
| Deferreds.CreateDeferred | src/common/deferred.ts:36-49 | A new deferred is unsettled and valid, with all three flags false. |
| Deferreds.Resolve | src/common/deferred.ts:55-61 | Afterwards the deferred is completed. An already completed one is unchanged. Otherwise `resolved` is set and `rejected` is kept. A plain value fulfils the promise, and a thenable's settlement, even rejected or never reached, becomes the promise's. |
| Deferreds.Reject | src/common/deferred.ts:67-73 | Afterwards the deferred is completed. An already completed one is unchanged. Otherwise it is rejected with the reason, `rejected` is set and `resolved` is kept. |
| Deferreds.SettlePreservesValid | src/common/deferred.ts:40-73 | Each settlement keeps the flags consistent with the promise, and completion is permanent. |
| Deferreds.CompletedIgnoresAll | src/common/deferred.ts:56-68 | Once completed, no sequence of resolves and rejects changes the deferred. |
| Deferreds.ApplyAllPreservesValid | src/common/deferred.ts:40-73 | Any sequence of settlements keeps the deferred valid, and leaves a completed one alone. |
| Deferreds.FirstSettlementWins | src/common/deferred.ts:55-73 | After any settlements of a fresh deferred, the outcome is that of the first settlement. |
| Deferreds.Await | src/common/deferred.ts:17-21 | Awaiting the promise of a valid deferred waits while no settling call was made. After `reject` it throws the reason. It returns only after `resolve`. |
| Deferreds.AwaitResolved | src/common/deferred.ts:55-61 | After one `resolve` of a fresh deferred, both `resolved` and `completed` are set. Awaiting returns a plain value, and passes on a thenable's outcome: it returns, throws, or waits forever as the thenable does. |
| Deferreds.AwaitRejected | src/common/deferred.ts:67-73 | After one `reject` of a fresh deferred, awaiting throws the reason. |
| PixiApi.InfoCommandWords | src/managers/pixiAPI.ts:128-132 | For plain-token arguments, the info command line splits into exactly `exe info --manifest-path <path> --json`. |
| PixiApi.InfoCommandSplitsPath | src/managers/pixiAPI.ts:128-132 | The path is interpolated unquoted: a manifest path with a blank in it reaches `pixi` as two words. |
| PixiApi.GetPixiInfo | src/managers/pixiAPI.ts:126-140 | No document is returned exactly when the command fails, the output does not parse, or it parses to `null`. A failure leaves the project as it was. A parsed document, `null` included, is stored and returned. |
| PixiApi.Synchronize | src/managers/pixiAPI.ts:31-51 | A failed command or an unparsable output leaves the project unchanged. A parsed document, even `null`, replaces the snapshot wholesale. "Failed to get" is reported exactly when there is no document. "Missing project_info" is reported exactly when the document lacks it, and the snapshot is kept in that case. |
| PixiApi.SynchronizeAllAppend | src/managers/pixiAPI.ts:18-29 | Re-running the query after one more manifest change is one more synchronisation step. |
| PixiApi.SynchronizeAllKeepsLatest | src/managers/pixiAPI.ts:31-51 | After any series of queries, the snapshot is the last parsed document, or the original one if no query parsed. The manifest path never changes. |
| PixiApi.EnvironmentNames | src/managers/pixiAPI.ts:53-59 | No snapshot gives no names. Otherwise the names are one per environment, in snapshot order. |
| PixiApi.Name | src/managers/pixiAPI.ts:154-156 | The project name from the snapshot, or "" when there is no snapshot or no `project_info`. |
| PixiApi.CollectFeaturesSorted | src/managers/pixiAPI.ts:159-162 | Adding every environment's features to a strictly ascending list keeps it strictly ascending. The list then holds exactly the old entries plus those features. |
| PixiApi.FeatureNames | src/managers/pixiAPI.ts:158-164 | The feature names are strictly ascending and hold each feature of any environment exactly once. Nothing else is in the list. |
| PixiApi.FeatureNamesIgnoreOrder | src/managers/pixiAPI.ts:158-164 | Two snapshots with the same features give the same list, however those features are spread over environments. |
| PixiApi.SimilarName | src/managers/pixiAPI.ts:91 | The found name is absent exactly when no existing name is a prefix of the value. When present, it is the first such name. |
| PixiApi.ValidateInput | src/managers/pixiAPI.ts:83-103 | Four mutually exclusive outcomes, each with its exact condition. An error is shown exactly for an existing name. A warning is shown for a new name when the first existing name that is a prefix of it is non-empty. The plain pattern message is shown for a name outside `^[a-z0-9-]+$`. Otherwise nothing is shown. |
| PixiApi.ValidateInputAccepts | src/managers/pixiAPI.ts:83-103 | With no empty existing name, a value is accepted exactly when it is new, extends no existing name and matches the pattern. |
| PixiApi.PrefixWarningOutranksPattern | src/managers/pixiAPI.ts:91-101 | With no empty existing name, a new name extending an existing one gets the warning, even when it breaks the pattern. |
| PixiApi.ValidateInputExistingName | src/managers/pixiAPI.ts:84-89 | With `dev` and `test` existing, `dev` gets the exact error message. |
| PixiApi.ValidateInputExtendedName | src/managers/pixiAPI.ts:91-96 | With `dev` and `test` existing, `dev2` gets the warning. |
| PixiApi.ValidateInputExtendedInvalidName | src/managers/pixiAPI.ts:91-101 | With `dev` and `test` existing, `dev_X` breaks the pattern but still gets the warning. |
| PixiApi.ValidateInputInvalidName | src/managers/pixiAPI.ts:98-101 | `Dev_1` gets the plain pattern message. |
| PixiApi.ValidateInputNewName | src/managers/pixiAPI.ts:98-102 | `prod` is accepted. |
| PixiApi.CreateEnvironment | src/managers/pixiAPI.ts:61-124 | Nothing runs exactly when the feature pick is cancelled, or the name is cancelled or empty. Otherwise it runs the command built from the configured executable, the manifest, the picked features and the name. It succeeds with the shell's output exactly when the shell succeeds, and otherwise notifies `Error creating environment: ` followed by the error. |
| PixiApi.CorrectedCommandWords | src/managers/pixiAPI.ts:111-114 | For plain-token arguments, the corrected command line splits into the `add` arguments, one `--feature <f>` pair per picked feature, and then the name. |
| PixiApi.CreateCommandAgrees | src/managers/pixiAPI.ts:111-114 | With at least one feature picked, the command as written equals the corrected one. |
| PixiApi.EmptyPickCommandWords | src/managers/pixiAPI.ts:111-114 | For plain-token arguments and no feature picked, the command as written splits into the `add` arguments followed by `--feature <name>`. There is no positional environment name. |
| PixiApi.CreateCommandWords | src/managers/pixiAPI.ts:110-118 | For plain-token arguments, the argument vector of the command as written, in both the non-empty and the empty pick. |
| PixiFinder.FindManifestPath | src/managers/pixi_finder.ts:52-80 | The manifest is the `pixi.toml` beside the lock whenever that exists. Otherwise it is the `pyproject.toml` beside it when that exists. Otherwise the search fails with the exact message. A found manifest is always in the lock's directory. |
| PixiFinder.ResolveAll | src/managers/pixi_finder.ts:12-14 | Resolving a folder's locks succeeds exactly when every lock has a manifest. The manifests then come one per lock, in order. |
| PixiFinder.ResolveFolders | src/managers/pixi_finder.ts:9-19 | Resolving folder by folder and flattening is the same as resolving all the folders' locks at once. |
| PixiFinder.ResolveAllAppend | src/managers/pixi_finder.ts:9-19 | Resolving two lists of locks one after the other is resolving their concatenation, in success and in failure. |
| PixiFinder.FindPixiProjects | src/managers/pixi_finder.ts:4-20 | No workspace or no folders gives the empty list. Otherwise the search succeeds exactly when every lock of every folder has a manifest, giving one manifest per lock in folder-then-search order. Any failure carries the not-found message. |
| PixiFinder.ManifestsBesideLocks | src/managers/pixi_finder.ts:55-75 | Every manifest found lies in the directory of the lock file that led to it. |
| PixiFinder.TwoRootsExample | src/managers/pixi_finder.ts:4-80 | Take two roots: one with `pixi.lock` and `pixi.toml`, and one with no lock. Exactly the one `pixi.toml` is found. |
| EnvironmentManager.Describe | src/managers/pixiEnvironmentManager.ts:89-118 | A descriptor carries: the environment's name as name and display name; its prefix as path and sys prefix; a `features:` summary; `pixi run --environment <name> python` to run; `pixi shell --environment <name>` to activate. |
| EnvironmentManager.BuildFlattens | src/managers/pixiEnvironmentManager.ts:87-122 | The build appends one descriptor per environment, project by project, in snapshot order. It completes exactly when every project has a snapshot. |
| EnvironmentManager.BuildCrashKeepsPrefix | src/managers/pixiEnvironmentManager.ts:87-88 | A failed build fails with the `TypeError` of the first project without a snapshot. It keeps the descriptors of the projects before that one. |
| EnvironmentManager.CollectionMatchesProjects | src/managers/pixiEnvironmentManager.ts:87-121 | The built descriptors' names are the projects' environment names, in order. Their number is the sum of the per-project counts. |
| EnvironmentManager.Initialize | src/managers/pixiEnvironmentManager.ts:69-125 | A later call changes nothing and awaits the stored deferred. The first call stores a fresh deferred and builds. It returns exactly when every project has a snapshot and otherwise throws the `TypeError`, keeping the partial collection. |
| EnvironmentManager.InitializeCorrected | src/managers/pixiEnvironmentManager.ts:69-125 | The first call settles the deferred it stores, so its outcome is what awaiting that deferred gives. It returns exactly when every project has a snapshot. |
| EnvironmentManager.InitializeLaterCallsNeverReturn | src/managers/pixiEnvironmentManager.ts:70-74 | When every project has a snapshot: on a fresh manager the first of `n` calls returns and all later ones never do. The collection is built once, with one descriptor per environment. |
| EnvironmentManager.InitializeLaterCallsPending | src/managers/pixiEnvironmentManager.ts:69-125 | For any projects, the first of `n` calls on a fresh manager returns exactly when every project has a snapshot, and otherwise throws the `TypeError`. Every later call never returns. |
| EnvironmentManager.InitializeCorrectedSettlesEveryCall | src/managers/pixiEnvironmentManager.ts:70-74 | With the correction, all `n` calls observe the outcome of the first, and the collection is built once. |
| EnvironmentManager.Filter | src/managers/pixiEnvironmentManager.ts:167-169 | `filter` keeps each descriptor whose callback returns `true` as often as it occurs, and drops every other one. A callback that never returns `true` keeps nothing. |
| EnvironmentManager.FilterAppend | src/managers/pixiEnvironmentManager.ts:167-169 | `filter` keeps order: filtering a concatenation concatenates the filtered parts. |
| EnvironmentManager.SelectScope | src/managers/pixiEnvironmentManager.ts:162-176 | "all" gives the collection and "global" the empty list. A `Uri` throws "not implemented". Any other scope gives the empty list. |
| EnvironmentManager.SelectScopeCorrected | src/managers/pixiEnvironmentManager.ts:166-170 | With the correction, "global" gives each descriptor named `base` as often as the collection holds it, and no other. |
| EnvironmentManager.GlobalCorrectedKeepsOrder | src/managers/pixiEnvironmentManager.ts:166-170 | The corrected "global" answer goes element by element in collection order: a `base` descriptor is kept in place and any other is dropped. |
| EnvironmentManager.GetEnvironments | src/managers/pixiEnvironmentManager.ts:154-177 | On a manager not yet initialised, it stores a fresh unsettled deferred and keeps the projects. It appends one descriptor per environment to the collection and answers the scope from the result. When a project has no snapshot, it instead keeps the descriptors of the projects before that one and throws the `TypeError`. Once a deferred is stored, the manager does not change. The call then waits, throws or answers from the stored collection, exactly as awaiting that deferred does. |
| EnvironmentManager.GetEnvironmentsAsWritten | src/managers/pixiEnvironmentManager.ts:154-177 | When every project has a snapshot: on a fresh manager, "all" returns every descriptor, one per environment. Any second `getEnvironments` call never returns. |
| EnvironmentManager.GlobalScopeMissesBase | src/managers/pixiEnvironmentManager.ts:166-170 | When every project has a snapshot, "global" returns the empty list even when an environment named `base` is in the collection. |
| EnvironmentManager.GetEnvironmentsCorrectedAnswers | src/managers/pixiEnvironmentManager.ts:154-177 | When every project has a snapshot, with both corrections, repeated calls keep returning the collection, and "global" returns its `base` descriptors with their multiplicity. |
| EnvironmentManager.Refresh | src/managers/pixiEnvironmentManager.ts:141-152 | A defined scope returns at once and an undefined one throws "not implemented". The manager never changes. |
| EnvironmentManager.Perform | src/managers/pixiEnvironmentManager.ts:127-207 | `create`, `remove`, `set`, `get`, `resolve` and `clearCache` each throw "not implemented" and change nothing. |
| PackageManager.GetChanges | src/managers/pixiPackageManager.ts:19-29 | There are as many changes as packages before and after together. First come the removals of the old packages, in order, then the additions of the new ones, in order. |
| PackageManager.GetChangesReplays | src/managers/pixiPackageManager.ts:19-29 | Replaying the changes on the old packages, counted with multiplicity, gives exactly the new packages. |
| PackageManager.UnchangedPackageReported | src/managers/pixiPackageManager.ts:23-28 | A package in both lists is reported both as removed and as added. |
| PackageManager.RemovalsFirst | src/managers/pixiPackageManager.ts:24-27 | No addition precedes a removal. |
| PackageManager.Perform | src/managers/pixiPackageManager.ts:59-117 | `install`, `uninstall`, `refresh`, `getPackages`, `getInstallable` and `clearCache` each throw "not implemented" and change nothing. |
| Strings.LessTotal | src/managers/pixiAPI.ts:163 | The default sort order is total. |
| Strings.LessTransitive | src/managers/pixiAPI.ts:163 | The default sort order is transitive. |
| SortedStrings.StrictlySortedUnique | src/managers/pixiAPI.ts:159-163 | There is one strictly ascending list per set of strings, so the sorted set has a single possible result. |

## Left out

- Running commands. The shell, its 5-second timeout and JSON parsing are
  outside the model. Their outcome is an input (`InfoOutcome`,
  `ShellOutcome`). A parsed document is taken to have the shape of `PixiInfo`.
- The construction-time race. The constructor starts `initialize` without
  awaiting it, so its `pixiInfo` check always sees `null`. The file watcher is
  therefore never attached. The model takes the watcher's re-queries as a
  given sequence of outcomes (`SynchronizeAll`).
- Logging, progress reporting, notifications and the markdown rendering of
  the tooltip. The tooltip is kept as its source text.
- `createPythonEnvironmentItem`. This is a call into the host, so the
  descriptor is modelled in its place.
- `withProgress`. It is assumed to run its callback and pass on its outcome.
- EnvironmentManager.Perform, PackageManager.Perform: the source methods are
  not `async`, so they throw at the call site, while `refresh` returns a
  rejected promise. `Threw` stands for both.
- The host's input box. The model does not show how the validator's verdict
  gates the name; `CreateEnvironment` takes the entered name as given.
- Deferreds.Resolve: a thenable is given only by the settlement it
  eventually reaches. When it settles and the `then` calls it receives are
  not modelled.
- Deferreds.Reject: the reason is a string message; `reject` accepts any
  value, and the registry's `reject` is never called.
- Strings.Less: compares characters as code points, while JavaScript's `sort`
  compares UTF-16 code units. The two orders differ only above U+FFFF.
- Strings.Words: models only splitting at blanks. The exact argument
  vectors are stated only for plain-token paths and names;
  `InfoCommandSplitsPath` shows what a blank in a path does. Quoting,
  globbing and expansion are not modelled.
- PixiFinder.FindPixiProjects: on failure, `Promise.all` rejects with the
  first rejection in time. All rejections carry the same message, so the
  model reports that message without saying which lock file failed.
- PixiFinder.LocksIn: the enumeration order of the recursive file search is
  part of the input, not derived.
- EnvironmentManager.Initialize: only the `null` snapshot is modelled as a
  build failure. A snapshot with a malformed environment list is not.
- `getPixiIgnore` in src/config.ts is not part of this model. Of
  src/common/shell.ts only the shell's word splitting is modelled
  (`Strings.Words`).

## Findings

| source | as written | input that shows it | evidently intended | confidence | as-written member | corrected member |
|---|---|---|---|---|---|---|
| src/managers/pixiEnvironmentManager.ts:69-125 | `initialize` stores a deferred and never resolves or rejects it. | Call `getEnvironments("all")` twice. The second call awaits the stored promise forever. | Settle the deferred when the build ends, so later calls observe the first call's outcome. | not executed | EnvironmentManager.InitializeLaterCallsNeverReturn | EnvironmentManager.InitializeCorrectedSettlesEveryCall |
| src/managers/pixiEnvironmentManager.ts:166-170 | The "global" filter callback is a block that compares but never returns, so every descriptor is dropped. | A project with an environment named `base`, queried with scope "global". The result is `[]`. | Keep the descriptors named `base`. | not executed | EnvironmentManager.GlobalScopeMissesBase | EnvironmentManager.SelectScopeCorrected |
| src/managers/pixiAPI.ts:111-114 | `--feature ` followed by the joined features. With no feature picked this gives `--feature  <name>`. | Pick no features and enter `dev`. The shell receives `--feature dev`, with no positional environment name. | One `--feature <f>` pair per picked feature, then the name. | not executed | PixiApi.EmptyPickCommandWords | PixiApi.CorrectedCommandWords |
