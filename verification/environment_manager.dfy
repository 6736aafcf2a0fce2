/**
 The environment registry (`PixiEnvironmentManager` in
 src/managers/pixiEnvironmentManager.ts): a one-shot initialisation that
 flattens every project's environments into host-facing descriptors, the
 scope dispatch of `getEnvironments`, and the lifecycle operations.
 */
module EnvironmentManager {
  import opened Outcomes
  import opened Strings
  import opened Deferreds
  import opened PixiApi

  // ---------------------------------------------------------------------------
  // Descriptors
  // ---------------------------------------------------------------------------

  /** An executable with its arguments. */
  datatype Command = Command(executable: string, args: seq<string>)

  /** The information an environment item is created from. */
  datatype Descriptor = Descriptor(
    name: string,
    displayName: string,
    shortDisplayName: string,
    displayPath: string,
    version: string,
    environmentPath: string,
    sysPrefix: string,
    description: string,
    tooltip: string,
    run: Command,
    activation: seq<Command>)

  /**
   The descriptor of one environment. The run and activation commands always
   use the bare `pixi`, whatever executable the configuration names.
   */
  function Describe(env: EnvironmentInfo): (d: Descriptor)
    ensures d.name == env.name && d.displayName == env.name
    ensures d.sysPrefix == env.prefix && d.environmentPath == env.prefix
    ensures d.description == "features: " + Join(env.features, ", ")
    ensures d.run == Command("pixi", ["run", "--environment", env.name, "python"])
    ensures d.activation == [Command("pixi", ["shell", "--environment", env.name])]
  {
    Descriptor(
      env.name,
      env.name,
      env.name + "_short",
      env.name + "_path",
      env.name + "_version",
      env.prefix,
      env.prefix,
      "features: " + Join(env.features, ", "),
      "# " + env.name + "\n" + "**features**: " + Join(env.features, ", ") + "\n\n" + "**prefix**: `" + env.prefix + "`",
      Command("pixi", ["run", "--environment", env.name, "python"]),
      [Command("pixi", ["shell", "--environment", env.name])])
  }

  function DescribeAll(envs: seq<EnvironmentInfo>): (ds: seq<Descriptor>)
    ensures |ds| == |envs|
    ensures forall i :: 0 <= i < |envs| ==> ds[i] == Describe(envs[i])
  {
    seq(|envs|, i requires 0 <= i < |envs| => Describe(envs[i]))
  }

  // ---------------------------------------------------------------------------
  // The build pass
  // ---------------------------------------------------------------------------

  /** Every project has a snapshot. */
  predicate Synchronized(projects: seq<Project>)
  {
    forall i :: 0 <= i < |projects| ==> projects[i].pixiInfo.Some?
  }

  /** The environments of all projects, project by project, each in snapshot order. */
  function AllEnvironments(projects: seq<Project>): seq<EnvironmentInfo>
    decreases |projects|
  {
    if |projects| == 0 then []
    else (if projects[0].pixiInfo.Some? then projects[0].pixiInfo.value.environmentsInfo else [])
         + AllEnvironments(projects[1..])
  }

  /** The sum of the projects' environment counts. */
  function EnvironmentCount(projects: seq<Project>): nat
    decreases |projects|
  {
    if |projects| == 0 then 0 else |EnvironmentNames(projects[0])| + EnvironmentCount(projects[1..])
  }

  /** The names the projects report, project by project. */
  function AllEnvironmentNames(projects: seq<Project>): seq<string>
    decreases |projects|
  {
    if |projects| == 0 then [] else EnvironmentNames(projects[0]) + AllEnvironmentNames(projects[1..])
  }

  /** The message of the `TypeError` raised by reading `environments_info` of a `null` snapshot. */
  const NullSnapshotMessage: string := "Cannot read properties of null (reading 'environments_info')"

  /** How the build pass ends: with every descriptor pushed, or failing after those pushed so far. */
  datatype BuildOutcome = Built(collection: seq<Descriptor>) | Crashed(collection: seq<Descriptor>, message: string)

  /**
   The nested `forEach` of `initialize`: appends the descriptor of every
   environment of every project to `collection`, and fails on the first
   project whose snapshot is `null`, keeping what it had already appended.
   A snapshot lacking `project_info` is described like any other.
   */
  function Build(projects: seq<Project>, collection: seq<Descriptor>): BuildOutcome
    decreases |projects|
  {
    if |projects| == 0 then Built(collection)
    else if projects[0].pixiInfo.None? then Crashed(collection, NullSnapshotMessage)
    else Build(projects[1..], collection + DescribeAll(projects[0].pixiInfo.value.environmentsInfo))
  }

  /** The index of the first project without a snapshot (`|projects|` when there is none). */
  function FirstUnsynchronized(projects: seq<Project>): (k: nat)
    ensures k <= |projects|
    ensures Synchronized(projects[..k])
    ensures k < |projects| ==> projects[k].pixiInfo.None?
    ensures k == |projects| <==> Synchronized(projects)
    decreases |projects|
  {
    if |projects| == 0 then 0
    else if projects[0].pixiInfo.None? then 0
    else
      var k := FirstUnsynchronized(projects[1..]);
      assert forall i :: 1 <= i < |projects| ==> projects[i] == projects[1..][i - 1];
      assert projects[..k + 1] == [projects[0]] + projects[1..][..k];
      k + 1
  }

  /**
   The build pass appends one descriptor per environment, project-major and
   in snapshot order, and succeeds exactly when every project has a snapshot.
   */
  lemma {:induction false} BuildFlattens(projects: seq<Project>, collection: seq<Descriptor>)
    ensures Build(projects, collection).Built? <==> Synchronized(projects)
    ensures Build(projects, collection).Built? ==>
              Build(projects, collection).collection == collection + DescribeAll(AllEnvironments(projects))
    decreases |projects|
  {
    if |projects| == 0 {
      assert DescribeAll([]) == [];
    } else if projects[0].pixiInfo.None? {
    } else {
      var envs := projects[0].pixiInfo.value.environmentsInfo;
      var rest := projects[1..];
      BuildFlattens(rest, collection + DescribeAll(envs));
      assert Synchronized(projects) <==> Synchronized(rest) by {
        assert forall i :: 1 <= i < |projects| ==> projects[i] == rest[i - 1];
      }
      DescribeAllAppend(envs, AllEnvironments(rest));
    }
  }

  /**
   When the build pass fails, it fails with the `TypeError` of the first
   project without a snapshot, after appending the descriptors of the
   projects before it.
   */
  lemma {:induction false} BuildCrashKeepsPrefix(projects: seq<Project>, collection: seq<Descriptor>)
    ensures Build(projects, collection).Crashed? ==>
              && Build(projects, collection).message == NullSnapshotMessage
              && Build(projects, collection).collection
                 == collection + DescribeAll(AllEnvironments(projects[..FirstUnsynchronized(projects)]))
    decreases |projects|
  {
    if |projects| == 0 {
    } else if projects[0].pixiInfo.None? {
      assert projects[..0] == [];
      assert DescribeAll([]) == [];
    } else {
      var envs := projects[0].pixiInfo.value.environmentsInfo;
      var rest := projects[1..];
      BuildCrashKeepsPrefix(rest, collection + DescribeAll(envs));
      var k := FirstUnsynchronized(rest);
      assert FirstUnsynchronized(projects) == k + 1;
      assert projects[..k + 1] == [projects[0]] + rest[..k];
      assert AllEnvironments(projects[..k + 1]) == envs + AllEnvironments(rest[..k]) by {
        assert ([projects[0]] + rest[..k])[1..] == rest[..k];
      }
      DescribeAllAppend(envs, AllEnvironments(rest[..k]));
    }
  }

  lemma DescribeAllAppend(a: seq<EnvironmentInfo>, b: seq<EnvironmentInfo>)
    ensures DescribeAll(a + b) == DescribeAll(a) + DescribeAll(b)
  {
  }

  /** The descriptors' names are the projects' environment names, and there are as many as the counts add up to. */
  lemma {:induction false} CollectionMatchesProjects(projects: seq<Project>)
    ensures |AllEnvironments(projects)| == EnvironmentCount(projects)
    ensures |AllEnvironmentNames(projects)| == EnvironmentCount(projects)
    ensures forall i :: 0 <= i < |AllEnvironments(projects)| ==>
              DescribeAll(AllEnvironments(projects))[i].name == AllEnvironmentNames(projects)[i]
    decreases |projects|
  {
    if |projects| > 0 {
      CollectionMatchesProjects(projects[1..]);
      var here := if projects[0].pixiInfo.Some? then projects[0].pixiInfo.value.environmentsInfo else [];
      var names := EnvironmentNames(projects[0]);
      assert |names| == |here|;
      assert forall i :: 0 <= i < |here| ==> names[i] == here[i].name;
      var all := AllEnvironments(projects);
      var allNames := AllEnvironmentNames(projects);
      assert all == here + AllEnvironments(projects[1..]);
      assert allNames == names + AllEnvironmentNames(projects[1..]);
      forall i | 0 <= i < |all| ensures DescribeAll(all)[i].name == allNames[i] {
        if i < |here| {
          assert all[i] == here[i];
        } else {
          assert all[i] == AllEnvironments(projects[1..])[i - |here|];
          assert allNames[i] == AllEnvironmentNames(projects[1..])[i - |here|];
        }
      }
    }
  }

  // ---------------------------------------------------------------------------
  // The manager and its one-shot initialisation
  // ---------------------------------------------------------------------------

  /** The manager's state: its projects, its collection, and the deferred `_initialized`. */
  datatype Manager = Manager(projects: seq<Project>, collection: seq<Descriptor>, initialized: Option<Deferred<()>>)

  function NewManager(projects: seq<Project>): Manager
  {
    Manager(projects, [], None)
  }

  /**
   `initialize`. The first call stores a fresh deferred before doing anything
   else, then builds the collection and returns once the build is over. Every
   later call returns the stored deferred's promise and builds nothing; since
   nothing ever settles that deferred, those calls never return.
   */
  function Initialize(m: Manager): (r: (Manager, Call<()>))
    ensures r.0.projects == m.projects
    ensures m.initialized.Some? ==> r.0 == m && r.1 == Await(m.initialized.value)
    ensures m.initialized.None? ==> r.0.initialized == Some(CreateDeferred())
    ensures m.initialized.None? ==> (r.1 == Returned(()) <==> Synchronized(m.projects))
    ensures m.initialized.None? && Synchronized(m.projects) ==>
              r.0.collection == m.collection + DescribeAll(AllEnvironments(m.projects))
    ensures m.initialized.None? && !Synchronized(m.projects) ==> r.1 == Threw(NullSnapshotMessage)
    ensures m.initialized.None? && !Synchronized(m.projects) ==>
              r.0.collection == m.collection + DescribeAll(AllEnvironments(m.projects[..FirstUnsynchronized(m.projects)]))
  {
    if m.initialized.Some? then (m, Await(m.initialized.value))
    else
      var pending := m.(initialized := Some(CreateDeferred()));
      BuildFlattens(m.projects, m.collection);
      BuildCrashKeepsPrefix(m.projects, m.collection);
      match Build(m.projects, m.collection)
      case Built(c) => (pending.(collection := c), Returned(()))
      case Crashed(c, message) => (pending.(collection := c), Threw(message))
  }

  /**
   The intended `initialize`: the first call settles the deferred it stored
   once the build is over, so every later call observes the same outcome.
   */
  function InitializeCorrected(m: Manager): (r: (Manager, Call<()>))
    ensures r.0.projects == m.projects
    ensures m.initialized.Some? ==> r.0 == m && r.1 == Await(m.initialized.value)
    ensures m.initialized.None? ==> r.0.initialized.Some? && r.0.initialized.value.completed
    ensures m.initialized.None? ==> r.1 == Await(r.0.initialized.value)
    ensures m.initialized.None? ==> (r.1 == Returned(()) <==> Synchronized(m.projects))
    ensures m.initialized.None? && Synchronized(m.projects) ==>
              r.0.collection == m.collection + DescribeAll(AllEnvironments(m.projects))
  {
    if m.initialized.Some? then (m, Await(m.initialized.value))
    else
      BuildFlattens(m.projects, m.collection);
      match Build(m.projects, m.collection)
      case Built(c) =>
        var done := Resolve(CreateDeferred(), Value(()));
        (m.(initialized := Some(done), collection := c), Returned(()))
      case Crashed(c, message) =>
        var failed := Reject(CreateDeferred<()>(), message);
        (m.(initialized := Some(failed), collection := c), Threw(message))
  }

  /** `n` calls of `step`, one after the other, with what each call observed. */
  function Repeat(m: Manager, n: nat, step: Manager -> (Manager, Call<()>)): (Manager, seq<Call<()>>)
    decreases n
  {
    if n == 0 then (m, [])
    else
      var (m', first) := step(m);
      var (final, rest) := Repeat(m', n - 1, step);
      (final, [first] + rest)
  }

  lemma {:induction false} RepeatInitialized(m: Manager, n: nat)
    requires m.initialized.Some? && Valid(m.initialized.value)
    ensures Repeat(m, n, Initialize).0 == m
    ensures |Repeat(m, n, Initialize).1| == n
    ensures forall i :: 0 <= i < n ==> Repeat(m, n, Initialize).1[i] == Await(m.initialized.value)
    decreases n
  {
    if n > 0 {
      RepeatInitialized(m, n - 1);
    }
  }

  lemma {:induction false} RepeatInitializedCorrected(m: Manager, n: nat)
    requires m.initialized.Some? && Valid(m.initialized.value)
    ensures Repeat(m, n, InitializeCorrected).0 == m
    ensures |Repeat(m, n, InitializeCorrected).1| == n
    ensures forall i :: 0 <= i < n ==> Repeat(m, n, InitializeCorrected).1[i] == Await(m.initialized.value)
    decreases n
  {
    if n > 0 {
      RepeatInitializedCorrected(m, n - 1);
    }
  }

  /**
   As written: of `n` calls on a fresh manager only the first returns; every
   later one waits forever. The collection is built exactly once.
   */
  lemma InitializeLaterCallsNeverReturn(projects: seq<Project>, n: nat)
    requires n > 0 && Synchronized(projects)
    ensures var (m, calls) := Repeat(NewManager(projects), n, Initialize);
            && |calls| == n
            && calls[0] == Returned(())
            && (forall i :: 1 <= i < n ==> calls[i] == Pending)
            && m.collection == DescribeAll(AllEnvironments(projects))
            && |m.collection| == EnvironmentCount(projects)
  {
    var (m1, first) := Initialize(NewManager(projects));
    RepeatInitialized(m1, n - 1);
    CollectionMatchesProjects(projects);
  }

  /**
   As written, for any projects: the first of `n` calls on a fresh manager
   returns exactly when every project has a snapshot and otherwise throws the
   `TypeError`; every later call waits forever either way.
   */
  lemma InitializeLaterCallsPending(projects: seq<Project>, n: nat)
    requires n > 0
    ensures var (m, calls) := Repeat(NewManager(projects), n, Initialize);
            && |calls| == n
            && (calls[0] == Returned(()) <==> Synchronized(projects))
            && (!Synchronized(projects) ==> calls[0] == Threw(NullSnapshotMessage))
            && (forall i :: 1 <= i < n ==> calls[i] == Pending)
  {
    var (m1, first) := Initialize(NewManager(projects));
    RepeatInitialized(m1, n - 1);
  }

  /**
   Corrected: every one of `n` calls on a fresh manager observes the same
   outcome as the first, and the collection is built exactly once.
   */
  lemma InitializeCorrectedSettlesEveryCall(projects: seq<Project>, n: nat)
    requires n > 0
    ensures var (m, calls) := Repeat(NewManager(projects), n, InitializeCorrected);
            && |calls| == n
            && calls[0] != Pending
            && (calls[0] == Returned(()) <==> Synchronized(projects))
            && (forall i :: 0 <= i < n ==> calls[i] == calls[0])
            && (Synchronized(projects) ==> m.collection == DescribeAll(AllEnvironments(projects)))
            && (Synchronized(projects) ==> |m.collection| == EnvironmentCount(projects))
  {
    var (m1, first) := InitializeCorrected(NewManager(projects));
    RepeatInitializedCorrected(m1, n - 1);
    CollectionMatchesProjects(projects);
  }

  // ---------------------------------------------------------------------------
  // getEnvironments
  // ---------------------------------------------------------------------------

  /** The scopes `getEnvironments` distinguishes; `Other` stands for any value that is none of the three. */
  datatype Scope = All | Global | UriScope(path: string) | Other

  /** `Array.prototype.filter` with a callback whose result is `undefined` (`None`) or a boolean. */
  function Filter(xs: seq<Descriptor>, keep: Descriptor -> Option<bool>): (r: seq<Descriptor>)
    ensures forall d :: multiset(r)[d] == if keep(d) == Some(true) then multiset(xs)[d] else 0
    ensures forall d :: d in r <==> d in xs && keep(d) == Some(true)
    ensures |r| <= |xs|
    ensures (forall i :: 0 <= i < |xs| ==> keep(xs[i]) != Some(true)) ==> r == []
    decreases |xs|
  {
    if |xs| == 0 then []
    else
      assert xs == [xs[0]] + xs[1..];
      if keep(xs[0]) == Some(true) then [xs[0]] + Filter(xs[1..], keep)
      else Filter(xs[1..], keep)
  }

  /** Filtering keeps order: the kept part of a concatenation is the concatenation of the kept parts. */
  lemma {:induction false} FilterAppend(a: seq<Descriptor>, b: seq<Descriptor>, keep: Descriptor -> Option<bool>)
    ensures Filter(a + b, keep) == Filter(a, keep) + Filter(b, keep)
    decreases |a|
  {
    if |a| == 0 {
      assert a + b == b;
    } else {
      assert (a + b)[0] == a[0];
      assert (a + b)[1..] == a[1..] + b;
      FilterAppend(a[1..], b, keep);
    }
  }

  /** The "global" callback as written: a block body that compares but returns nothing. */
  function GlobalCallback(d: Descriptor): Option<bool>
  {
    None
  }

  /** The "global" callback as intended: keep the descriptors named `base`. */
  function GlobalCallbackCorrected(d: Descriptor): Option<bool>
  {
    Some(d.name == "base")
  }

  /**
   The scope dispatch after initialisation: "all" gives a copy of the
   collection, "global" the empty list, a `Uri` throws, anything else gives
   the empty list.
   */
  function SelectScope(collection: seq<Descriptor>, scope: Scope): (r: Call<seq<Descriptor>>)
    ensures scope.All? ==> r == Returned(collection)
    ensures scope.Global? ==> r == Returned([])
    ensures scope.UriScope? ==> r == Threw(NotImplemented)
    ensures scope.Other? ==> r == Returned([])
  {
    match scope
    case All => Returned(collection)
    case Global => Returned(Filter(collection, GlobalCallback))
    case UriScope(_) => Threw(NotImplemented)
    case Other => Returned([])
  }

  /** The intended dispatch: "global" gives the descriptors named `base`. */
  function SelectScopeCorrected(collection: seq<Descriptor>, scope: Scope): (r: Call<seq<Descriptor>>)
    ensures scope.All? ==> r == Returned(collection)
    ensures scope.Global? ==> r.Returned?
    ensures scope.Global? ==>
              forall d :: multiset(r.value)[d] == if d.name == "base" then multiset(collection)[d] else 0
    ensures scope.UriScope? ==> r == Threw(NotImplemented)
    ensures scope.Other? ==> r == Returned([])
  {
    match scope
    case All => Returned(collection)
    case Global => Returned(Filter(collection, GlobalCallbackCorrected))
    case UriScope(_) => Threw(NotImplemented)
    case Other => Returned([])
  }

  /**
   The corrected "global" answer keeps the collection's order: it is
   computed element by element, each `base` descriptor kept in place and
   every other one dropped.
   */
  lemma GlobalCorrectedKeepsOrder(a: seq<Descriptor>, b: seq<Descriptor>, d: Descriptor)
    ensures SelectScopeCorrected(a + b, Global).value
            == SelectScopeCorrected(a, Global).value + SelectScopeCorrected(b, Global).value
    ensures SelectScopeCorrected([d], Global).value == if d.name == "base" then [d] else []
  {
    FilterAppend(a, b, GlobalCallbackCorrected);
    assert [d][1..] == [];
  }

  /** Passes on what an awaited `initialize` observed when it did not return. */
  function Abandon(c: Call<()>): Call<seq<Descriptor>>
    requires !c.Returned?
  {
    if c.Threw? then Threw(c.message) else Pending
  }

  /** `getEnvironments`: awaits `initialize`, then dispatches on the scope. */
  function GetEnvironments(m: Manager, scope: Scope): (r: (Manager, Call<seq<Descriptor>>))
    ensures m.initialized.Some? ==> r.0 == m
    ensures m.initialized.None? ==> r.0.projects == m.projects && r.0.initialized == Some(CreateDeferred())
    ensures m.initialized.None? && Synchronized(m.projects) ==>
              r.0.collection == m.collection + DescribeAll(AllEnvironments(m.projects))
    ensures m.initialized.None? && !Synchronized(m.projects) ==>
              r.0.collection == m.collection + DescribeAll(AllEnvironments(m.projects[..FirstUnsynchronized(m.projects)]))
    ensures m.initialized.Some? && Await(m.initialized.value).Returned? ==> r.1 == SelectScope(m.collection, scope)
    ensures m.initialized.Some? && Await(m.initialized.value).Threw? ==>
              r.1 == Threw(Await(m.initialized.value).message)
    ensures m.initialized.Some? && Await(m.initialized.value).Pending? ==> r.1 == Pending
    ensures m.initialized.None? && Synchronized(m.projects) ==>
              r.1 == SelectScope(m.collection + DescribeAll(AllEnvironments(m.projects)), scope)
    ensures m.initialized.None? && !Synchronized(m.projects) ==> r.1 == Threw(NullSnapshotMessage)
    ensures m.initialized.Some? && Valid(m.initialized.value) && !m.initialized.value.completed ==> r.1 == Pending
    ensures m.initialized.Some? && Valid(m.initialized.value) && m.initialized.value.rejected ==>
              r.1 == Threw(m.initialized.value.promise.reason)
  {
    var (m', init) := Initialize(m);
    if init.Returned? then (m', SelectScope(m'.collection, scope)) else (m', Abandon(init))
  }

  /** `getEnvironments` with the corrected `initialize` and "global" callback. */
  function GetEnvironmentsCorrected(m: Manager, scope: Scope): (r: (Manager, Call<seq<Descriptor>>))
  {
    var (m', init) := InitializeCorrected(m);
    if init.Returned? then (m', SelectScopeCorrected(m'.collection, scope)) else (m', Abandon(init))
  }

  /**
   On a fresh manager whose projects all have snapshots, "all" returns the
   whole collection, built by the call itself. A second call never returns.
   */
  lemma GetEnvironmentsAsWritten(projects: seq<Project>, scope: Scope)
    requires Synchronized(projects)
    ensures var (m, first) := GetEnvironments(NewManager(projects), All);
            && first == Returned(DescribeAll(AllEnvironments(projects)))
            && |first.value| == EnvironmentCount(projects)
            && GetEnvironments(m, scope).1 == Pending
  {
    CollectionMatchesProjects(projects);
    assert [] + DescribeAll(AllEnvironments(projects)) == DescribeAll(AllEnvironments(projects));
  }

  /** As written, "global" is empty even when the collection holds an environment named `base`. */
  lemma GlobalScopeMissesBase(projects: seq<Project>)
    requires Synchronized(projects)
    requires exists i :: 0 <= i < |AllEnvironments(projects)| && AllEnvironments(projects)[i].name == "base"
    ensures GetEnvironments(NewManager(projects), Global).1 == Returned([])
    ensures exists d :: d in GetEnvironments(NewManager(projects), All).1.value && d.name == "base"
  {
    var i :| 0 <= i < |AllEnvironments(projects)| && AllEnvironments(projects)[i].name == "base";
    assert DescribeAll(AllEnvironments(projects))[i].name == "base";
  }

  /**
   Corrected: on a fresh manager the first call and every later one return,
   "all" the whole collection and "global" exactly the descriptors named `base`.
   */
  lemma GetEnvironmentsCorrectedAnswers(projects: seq<Project>, scope: Scope)
    requires Synchronized(projects)
    ensures var (m, first) := GetEnvironmentsCorrected(NewManager(projects), All);
            && first == Returned(DescribeAll(AllEnvironments(projects)))
            && GetEnvironmentsCorrected(m, All).1 == first
            && GetEnvironmentsCorrected(m, Global).1.Returned?
            && forall d :: multiset(GetEnvironmentsCorrected(m, Global).1.value)[d]
                           == if d.name == "base" then multiset(first.value)[d] else 0
  {
    assert [] + DescribeAll(AllEnvironments(projects)) == DescribeAll(AllEnvironments(projects));
  }

  // ---------------------------------------------------------------------------
  // The remaining lifecycle operations
  // ---------------------------------------------------------------------------

  /**
   `refresh`: returns at once, changing nothing, for any defined scope; fails
   as not implemented when the scope is `undefined`.
   */
  function Refresh(m: Manager, scope: Option<string>): (r: (Manager, Call<()>))
    ensures r.0 == m
    ensures r.1 == Returned(()) <==> scope.Some?
    ensures scope.None? ==> r.1 == Threw(NotImplemented)
  {
    if scope.Some? then (m, Returned(())) else (m, Threw(NotImplemented))
  }

  /** The operations the manager declares without implementing them. */
  datatype Operation = Create | Remove | Set | Get | ResolveEnvironment | ClearCache

  /** `create`, `remove`, `set`, `get`, `resolve`, `clearCache`: each throws and changes nothing. */
  function Perform(m: Manager, op: Operation): (r: (Manager, Call<()>))
    ensures r.0 == m
    ensures r.1 == Threw(NotImplemented)
  {
    (m, Threw(NotImplemented))
  }
}
