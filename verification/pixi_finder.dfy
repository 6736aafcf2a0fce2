/**
 The manifest locator (src/managers/pixi_finder.ts): every `pixi.lock` found
 under a workspace folder marks a project whose manifest is the `pixi.toml`
 or, failing that, the `pyproject.toml` beside it.

 The file system is a set of existing paths plus, per workspace folder, the
 lock files the recursive search for `pixi.lock` enumerates, in its order.
 */
module PixiFinder {
  import opened Outcomes

  /** A path as the sequence of its segments. */
  type Path = seq<string>

  datatype FileSystem = FileSystem(existing: set<Path>, locks: map<Path, seq<Path>>)

  const ManifestNotFound: string := "Neither pixi.toml nor pyproject.toml was found in the directory."

  /** `findPixiLocks`: the lock files the search enumerates under `folder`. */
  function LocksIn(fs: FileSystem, folder: Path): seq<Path>
  {
    if folder in fs.locks then fs.locks[folder] else []
  }

  /** `Uri.joinPath(uri, "..")`: the containing directory; the root is its own parent. */
  function Parent(p: Path): Path
  {
    if |p| == 0 then p else p[..|p| - 1]
  }

  function PixiToml(lock: Path): Path
  {
    Parent(lock) + ["pixi.toml"]
  }

  function PyprojectToml(lock: Path): Path
  {
    Parent(lock) + ["pyproject.toml"]
  }

  /**
   `findManifestPath`: the `pixi.toml` next to the lock file whenever it
   exists, else the `pyproject.toml` next to it when that exists, else an error.
   */
  function FindManifestPath(fs: FileSystem, lock: Path): (r: Result<Path>)
    ensures r.Success? <==> PixiToml(lock) in fs.existing || PyprojectToml(lock) in fs.existing
    ensures PixiToml(lock) in fs.existing ==> r.value == PixiToml(lock)
    ensures PixiToml(lock) !in fs.existing && PyprojectToml(lock) in fs.existing ==> r.value == PyprojectToml(lock)
    ensures r.Failure? ==> r.message == ManifestNotFound
    ensures r.Success? ==> Parent(r.value) == Parent(lock)
  {
    if PixiToml(lock) in fs.existing then
      assert Parent(PixiToml(lock)) == Parent(lock);
      Success(PixiToml(lock))
    else if PyprojectToml(lock) in fs.existing then
      assert Parent(PyprojectToml(lock)) == Parent(lock);
      Success(PyprojectToml(lock))
    else Failure(ManifestNotFound)
  }

  /**
   `Promise.all(locks.map(findManifestPath))`: one manifest per lock file in
   the same order, or the error as soon as any lock file has none.
   */
  function ResolveAll(fs: FileSystem, locks: seq<Path>): (r: Result<seq<Path>>)
    ensures r.Success? <==> forall i :: 0 <= i < |locks| ==> FindManifestPath(fs, locks[i]).Success?
    ensures r.Success? ==> |r.value| == |locks|
    ensures r.Success? ==> forall i :: 0 <= i < |locks| ==> r.value[i] == FindManifestPath(fs, locks[i]).value
    ensures r.Failure? ==> r.message == ManifestNotFound
    decreases |locks|
  {
    if |locks| == 0 then Success([])
    else
      match FindManifestPath(fs, locks[0])
      case Failure(e) => Failure(e)
      case Success(manifest) =>
        var rest := ResolveAll(fs, locks[1..]);
        assert forall i :: 1 <= i < |locks| ==> locks[i] == locks[1..][i - 1];
        if rest.Failure? then
          assert exists i :: 1 <= i < |locks| && FindManifestPath(fs, locks[i]).Failure? by {
            var j :| 0 <= j < |locks[1..]| && FindManifestPath(fs, locks[1..][j]).Failure?;
            assert locks[j + 1] == locks[1..][j];
          }
          Failure(rest.message)
        else
          Success([manifest] + rest.value)
  }

  /** The lock files of all folders, folder by folder, each folder's in search order. */
  function AllLocks(fs: FileSystem, folders: seq<Path>): seq<Path>
    decreases |folders|
  {
    if |folders| == 0 then [] else LocksIn(fs, folders[0]) + AllLocks(fs, folders[1..])
  }

  /** The per-folder results, flattened in folder order, or the first error. */
  function ResolveFolders(fs: FileSystem, folders: seq<Path>): (r: Result<seq<Path>>)
    ensures r == ResolveAll(fs, AllLocks(fs, folders))
    decreases |folders|
  {
    if |folders| == 0 then Success([])
    else
      var here := ResolveAll(fs, LocksIn(fs, folders[0]));
      var rest := ResolveFolders(fs, folders[1..]);
      ResolveAllAppend(fs, LocksIn(fs, folders[0]), AllLocks(fs, folders[1..]));
      if here.Failure? then Failure(here.message)
      else if rest.Failure? then Failure(rest.message)
      else Success(here.value + rest.value)
  }

  /** Resolving two lists of lock files one after the other resolves their concatenation. */
  lemma ResolveAllAppend(fs: FileSystem, a: seq<Path>, b: seq<Path>)
    ensures ResolveAll(fs, a + b).Success? <==> ResolveAll(fs, a).Success? && ResolveAll(fs, b).Success?
    ensures ResolveAll(fs, a + b).Success? ==>
              ResolveAll(fs, a + b).value == ResolveAll(fs, a).value + ResolveAll(fs, b).value
  {
    var ab := a + b;
    assert forall i :: 0 <= i < |a| ==> ab[i] == a[i];
    assert forall i :: 0 <= i < |b| ==> ab[|a| + i] == b[i];
    if ResolveAll(fs, ab).Success? {
      var r, ra, rb := ResolveAll(fs, ab).value, ResolveAll(fs, a).value, ResolveAll(fs, b).value;
      assert forall i :: 0 <= i < |ab| ==> r[i] == (ra + rb)[i] by {
        forall i | 0 <= i < |ab| ensures r[i] == (ra + rb)[i] {
          if i < |a| {
          } else {
            assert ab[i] == b[i - |a|];
          }
        }
      }
    } else {
      var i :| 0 <= i < |ab| && FindManifestPath(fs, ab[i]).Failure?;
      if i >= |a| {
        assert ab[i] == b[i - |a|];
      }
    }
  }

  /**
   `findPixiProjects`: the manifest of every lock file of every workspace
   folder (`None` when there is no workspace), in folder order and then in
   search order, without removing duplicates. One lock file without a
   manifest fails the whole search.
   */
  function FindPixiProjects(fs: FileSystem, workspaceFolders: Option<seq<Path>>): (r: Result<seq<Path>>)
    ensures workspaceFolders.None? || workspaceFolders.value == [] ==> r == Success([])
    ensures var locks := AllLocks(fs, if workspaceFolders.Some? then workspaceFolders.value else []);
            && (r.Success? <==> forall i :: 0 <= i < |locks| ==> FindManifestPath(fs, locks[i]).Success?)
            && (r.Success? ==> |r.value| == |locks|)
            && (r.Success? ==> forall i :: 0 <= i < |locks| ==> r.value[i] == FindManifestPath(fs, locks[i]).value)
    ensures r.Failure? ==> r.message == ManifestNotFound
  {
    var folders := if workspaceFolders.Some? then workspaceFolders.value else [];
    var r := ResolveFolders(fs, folders);
    assert r == ResolveAll(fs, AllLocks(fs, folders));
    r
  }

  /** Every manifest found lies in the directory of the lock file that led to it. */
  lemma ManifestsBesideLocks(fs: FileSystem, folders: seq<Path>)
    requires FindPixiProjects(fs, Some(folders)).Success?
    ensures var locks := AllLocks(fs, folders);
            forall i :: 0 <= i < |locks| ==> Parent(FindPixiProjects(fs, Some(folders)).value[i]) == Parent(locks[i])
  {
  }

  /**
   Two workspace roots, one holding `pixi.lock` and `pixi.toml` and one
   without a lock file: exactly the one `pixi.toml` is found.
   */
  lemma TwoRootsExample()
    ensures var fs := FileSystem({["w1", "pixi.lock"], ["w1", "pixi.toml"]}, map[["w1"] := [["w1", "pixi.lock"]], ["w2"] := []]);
            FindPixiProjects(fs, Some([["w1"], ["w2"]])) == Success([["w1", "pixi.toml"]])
  {
    var fs := FileSystem({["w1", "pixi.lock"], ["w1", "pixi.toml"]}, map[["w1"] := [["w1", "pixi.lock"]], ["w2"] := []]);
    var lock: Path := ["w1", "pixi.lock"];
    assert Parent(lock) == ["w1"];
    assert PixiToml(lock) == ["w1", "pixi.toml"];
    assert AllLocks(fs, [["w1"], ["w2"]]) == [lock] by {
      assert LocksIn(fs, ["w1"]) == [lock];
      assert LocksIn(fs, ["w2"]) == [];
      assert [["w1"], ["w2"]][1..] == [["w2"]];
    }
    assert FindManifestPath(fs, lock) == Success(["w1", "pixi.toml"]);
    var r := ResolveAll(fs, [lock]);
    assert [lock][0] == lock;
    assert r.Success?;
    assert |r.value| == 1 && r.value[0] == ["w1", "pixi.toml"];
    assert r.value == [["w1", "pixi.toml"]];
  }
}
