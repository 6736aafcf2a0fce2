/**
 The package manager (src/managers/pixiPackageManager.ts): the change list
 reported between two package lists, and the operations the manager declares
 without implementing them.
 */
module PackageManager {
  import opened Outcomes

  datatype ChangeKind = Add | Remove

  datatype Change<P> = Change(kind: ChangeKind, pkg: P)

  /**
   `getChanges`: a removal of every package before, in order, then an
   addition of every package after, in order. The two lists are not compared.
   */
  function GetChanges<P>(before: seq<P>, after: seq<P>): (r: seq<Change<P>>)
    ensures |r| == |before| + |after|
    ensures forall i :: 0 <= i < |before| ==> r[i] == Change(Remove, before[i])
    ensures forall j :: 0 <= j < |after| ==> r[|before| + j] == Change(Add, after[j])
  {
    seq(|before|, i requires 0 <= i < |before| => Change(Remove, before[i]))
      + seq(|after|, j requires 0 <= j < |after| => Change(Add, after[j]))
  }

  /** Applies a change list to the installed packages, counted with multiplicity. */
  function ApplyChanges<P>(installed: multiset<P>, changes: seq<Change<P>>): multiset<P>
    decreases |changes|
  {
    if |changes| == 0 then installed
    else
      var c := changes[0];
      var next := if c.kind == Add then installed + multiset{c.pkg} else installed - multiset{c.pkg};
      ApplyChanges(next, changes[1..])
  }

  lemma {:induction false} ApplyChangesAppend<P>(installed: multiset<P>, a: seq<Change<P>>, b: seq<Change<P>>)
    ensures ApplyChanges(installed, a + b) == ApplyChanges(ApplyChanges(installed, a), b)
    decreases |a|
  {
    if |a| == 0 {
      assert a + b == b;
    } else {
      assert (a + b)[0] == a[0];
      assert (a + b)[1..] == a[1..] + b;
      var c := a[0];
      var next := if c.kind == Add then installed + multiset{c.pkg} else installed - multiset{c.pkg};
      ApplyChangesAppend(next, a[1..], b);
    }
  }

  lemma {:induction false} RemoveAll<P>(rest: multiset<P>, before: seq<P>)
    ensures ApplyChanges(rest + multiset(before), GetChanges(before, [])) == rest
    decreases |before|
  {
    if |before| > 0 {
      var changes := GetChanges(before, []);
      assert changes[0] == Change(Remove, before[0]);
      assert changes[1..] == GetChanges(before[1..], []);
      assert before == [before[0]] + before[1..];
      assert rest + multiset(before) - multiset{before[0]} == rest + multiset(before[1..]);
      RemoveAll(rest, before[1..]);
    }
  }

  lemma {:induction false} AddAll<P>(installed: multiset<P>, after: seq<P>)
    ensures ApplyChanges(installed, GetChanges([], after)) == installed + multiset(after)
    decreases |after|
  {
    if |after| > 0 {
      var changes := GetChanges([], after);
      assert changes[0] == Change(Add, after[0]);
      assert changes[1..] == GetChanges([], after[1..]);
      assert after == [after[0]] + after[1..];
      AddAll(installed + multiset{after[0]}, after[1..]);
    }
  }

  /** Replaying the change list on the packages before yields exactly the packages after. */
  lemma GetChangesReplays<P>(before: seq<P>, after: seq<P>)
    ensures ApplyChanges(multiset(before), GetChanges(before, after)) == multiset(after)
  {
    assert GetChanges(before, after) == GetChanges(before, []) + GetChanges([], after);
    ApplyChangesAppend(multiset(before), GetChanges(before, []), GetChanges([], after));
    RemoveAll(multiset{}, before);
    assert multiset{} + multiset(before) == multiset(before);
    AddAll(multiset{}, after);
    assert multiset{} + multiset(after) == multiset(after);
  }

  /** A package in both lists is reported as removed and as added. */
  lemma UnchangedPackageReported<P>(before: seq<P>, after: seq<P>, p: P)
    requires p in before && p in after
    ensures Change(Remove, p) in GetChanges(before, after)
    ensures Change(Add, p) in GetChanges(before, after)
  {
    var r := GetChanges(before, after);
    var i :| 0 <= i < |before| && before[i] == p;
    var j :| 0 <= j < |after| && after[j] == p;
    assert r[i] == Change(Remove, p);
    assert r[|before| + j] == Change(Add, p);
  }

  /** Every removal comes before every addition. */
  lemma RemovalsFirst<P>(before: seq<P>, after: seq<P>, i: nat, j: nat)
    requires i < j < |before| + |after|
    requires GetChanges(before, after)[j].kind == Remove
    ensures GetChanges(before, after)[i].kind == Remove
  {
  }

  /** The manager's state: the per-environment package cache, which no operation reads or fills. */
  datatype State<P> = State(packages: map<string, seq<P>>)

  /** The operations the manager declares without implementing them. */
  datatype Operation = Install | Uninstall | Refresh | GetPackages | GetInstallable | ClearCache

  /** Each operation throws and leaves the cache as it was. */
  function Perform<P>(s: State<P>, op: Operation): (r: (State<P>, Call<()>))
    ensures r.0 == s
    ensures r.1 == Threw(NotImplemented)
  {
    (s, Threw(NotImplemented))
  }
}
