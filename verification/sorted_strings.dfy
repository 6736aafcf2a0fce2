/**
 Strictly ascending sequences of strings: what `Array.from(new Set(..)).sort()`
 produces. Such a sequence is sorted and free of duplicates, and it is the only
 strictly ascending enumeration of its elements.
 */
module SortedStrings {
  import opened Strings

  predicate StrictlySorted(xs: seq<string>)
  {
    forall i, j :: 0 <= i < j < |xs| ==> Less(xs[i], xs[j])
  }

  /** The elements of `xs`, as a set. */
  function Elements(xs: seq<string>): set<string>
  {
    set x | x in xs
  }

  lemma StrictlySortedHasNoDuplicates(xs: seq<string>)
    requires StrictlySorted(xs)
    ensures forall i, j :: 0 <= i < j < |xs| ==> xs[i] != xs[j]
  {
    forall i, j | 0 <= i < j < |xs|
      ensures xs[i] != xs[j]
    {
      LessIrreflexive(xs[i]);
    }
  }

  /** Adds `x` to an ascending sequence, as adding it to a `Set` and sorting would. */
  function Insert(xs: seq<string>, x: string): seq<string>
  {
    if |xs| == 0 then [x]
    else if x == xs[0] then xs
    else if Less(x, xs[0]) then [x] + xs
    else [xs[0]] + Insert(xs[1..], x)
  }

  /** Putting an element below all others in front keeps a sequence strictly ascending. */
  lemma ConsSorted(x: string, xs: seq<string>)
    requires StrictlySorted(xs)
    requires forall k :: 0 <= k < |xs| ==> Less(x, xs[k])
    ensures StrictlySorted([x] + xs)
  {
    var r := [x] + xs;
    forall i, j | 0 <= i < j < |r| ensures Less(r[i], r[j]) {
      if i == 0 {
        assert r[j] == xs[j - 1];
      } else {
        assert r[i] == xs[i - 1] && r[j] == xs[j - 1];
      }
    }
  }

  lemma ElementsCons(a: string, xs: seq<string>)
    ensures Elements([a] + xs) == {a} + Elements(xs)
  {
    assert forall y :: y in [a] + xs <==> y == a || y in xs;
  }

  /** A bound below every element of `tail` and below `x` is below every element of `rest`. */
  lemma BelowAllElements(b: string, tail: seq<string>, x: string, rest: seq<string>)
    requires forall m :: 0 <= m < |tail| ==> Less(b, tail[m])
    requires Less(b, x)
    requires Elements(rest) == Elements(tail) + {x}
    ensures forall k :: 0 <= k < |rest| ==> Less(b, rest[k])
  {
    forall k | 0 <= k < |rest| ensures Less(b, rest[k]) {
      assert rest[k] in Elements(rest);
      if rest[k] != x {
        var m :| 0 <= m < |tail| && tail[m] == rest[k];
      }
    }
  }

  lemma {:induction false} InsertSorted(xs: seq<string>, x: string)
    requires StrictlySorted(xs)
    ensures StrictlySorted(Insert(xs, x))
    ensures Elements(Insert(xs, x)) == Elements(xs) + {x}
    decreases |xs|
  {
    if |xs| == 0 {
    } else if x == xs[0] {
    } else if Less(x, xs[0]) {
      forall k | 0 <= k < |xs| ensures Less(x, xs[k]) {
        if k > 0 {
          LessTransitive(x, xs[0], xs[k]);
        }
      }
      ConsSorted(x, xs);
    } else {
      LessTotal(x, xs[0]);
      var tail := xs[1..];
      var rest := Insert(tail, x);
      InsertSorted(tail, x);
      assert xs == [xs[0]] + tail;
      assert Elements(xs) == {xs[0]} + Elements(tail);
      assert forall m :: 0 <= m < |tail| ==> Less(xs[0], tail[m]) by {
        forall m | 0 <= m < |tail| ensures Less(xs[0], tail[m]) {
          assert xs[m + 1] == tail[m];
        }
      }
      BelowAllElements(xs[0], tail, x, rest);
      ConsSorted(xs[0], rest);
      assert Insert(xs, x) == [xs[0]] + rest;
      ElementsCons(xs[0], rest);
    }
  }

  /** Adds every element of `fs`, in order, to an ascending sequence. */
  function InsertAll(xs: seq<string>, fs: seq<string>): seq<string>
    decreases |fs|
  {
    if |fs| == 0 then xs else InsertAll(Insert(xs, fs[0]), fs[1..])
  }

  lemma {:induction false} InsertAllSorted(xs: seq<string>, fs: seq<string>)
    requires StrictlySorted(xs)
    ensures StrictlySorted(InsertAll(xs, fs))
    ensures Elements(InsertAll(xs, fs)) == Elements(xs) + Elements(fs)
    decreases |fs|
  {
    if |fs| > 0 {
      InsertSorted(xs, fs[0]);
      InsertAllSorted(Insert(xs, fs[0]), fs[1..]);
      assert fs == [fs[0]] + fs[1..];
      assert Elements(fs) == {fs[0]} + Elements(fs[1..]);
    }
  }

  lemma ElementsEmpty(xs: seq<string>)
    ensures Elements(xs) == {} <==> |xs| == 0
  {
    if |xs| > 0 {
      assert xs[0] in Elements(xs);
    }
  }

  /** Two strictly ascending sequences with the same elements are the same sequence. */
  lemma {:induction false} StrictlySortedUnique(a: seq<string>, b: seq<string>)
    requires StrictlySorted(a) && StrictlySorted(b)
    requires Elements(a) == Elements(b)
    ensures a == b
    decreases |a|
  {
    ElementsEmpty(a);
    ElementsEmpty(b);
    if |a| > 0 {
      assert a[0] in Elements(b);
      assert |b| > 0;
      assert b[0] in Elements(a);
      if a[0] != b[0] {
        var i :| 0 <= i < |a| && a[i] == b[0];
        var j :| 0 <= j < |b| && b[j] == a[0];
        assert Less(a[0], b[0]);
        assert Less(b[0], a[0]);
        LessAsymmetric(a[0], b[0]);
      }
      assert a == [a[0]] + a[1..];
      assert b == [b[0]] + b[1..];
      StrictlySortedHasNoDuplicates(a);
      StrictlySortedHasNoDuplicates(b);
      assert Elements(a[1..]) == Elements(a) - {a[0]} by {
        forall y | y in Elements(a[1..]) ensures y != a[0] {
          var k :| 1 <= k < |a| && a[k] == y;
        }
      }
      assert Elements(b[1..]) == Elements(b) - {b[0]} by {
        forall y | y in Elements(b[1..]) ensures y != b[0] {
          var k :| 1 <= k < |b| && b[k] == y;
        }
      }
      StrictlySortedUnique(a[1..], b[1..]);
    }
  }
}
