/** Property names are compared byte by byte, and every list of names in the
    store is kept strictly ascending. */
module Names {
  import opened ByteCodec

  /** Go's string order: lexicographic on bytes, a proper prefix first. */
  predicate Less(a: Bytes, b: Bytes) {
    b != [] && (a == [] || a[0] < b[0] || (a[0] == b[0] && Less(a[1..], b[1..])))
  }

  /** The order of strings, position by position: a proper prefix comes first, and otherwise
      the first byte in which the strings differ decides. */
  ghost predicate Precedes(a: Bytes, b: Bytes) {
    || (|a| < |b| && b[..|a|] == a)
    || exists k :: 0 <= k < |a| && k < |b| && a[..k] == b[..k] && a[k] < b[k]
  }

  lemma {:induction false} LessMeans(a: Bytes, b: Bytes)
    ensures Less(a, b) <==> Precedes(a, b)
  {
    if a != [] && b != [] {
      if a[0] == b[0] {
        LessMeans(a[1..], b[1..]);
        SameFirst(a, b);
      } else if a[0] < b[0] {
        assert a[..0] == b[..0];
      } else {
        assert forall k :: 0 < k <= |a| && k <= |b| ==> a[..k][0] != b[..k][0];
      }
    }
  }

  lemma SamePrefix(a: Bytes, b: Bytes, k: nat)
    requires k < |a| && k < |b| && a[0] == b[0]
    ensures a[1..][..k] == b[1..][..k] <==> a[..k + 1] == b[..k + 1]
  {
    var x, y := a[1..], b[1..];
    assert a[..k + 1] == [a[0]] + x[..k] && b[..k + 1] == [b[0]] + y[..k];
    assert x[..k] == a[..k + 1][1..] && y[..k] == b[..k + 1][1..];
  }

  /** A common first byte does not matter. */
  lemma SameFirst(a: Bytes, b: Bytes)
    requires a != [] && b != [] && a[0] == b[0]
    ensures Precedes(a, b) <==> Precedes(a[1..], b[1..])
  {
    var x, y := a[1..], b[1..];
    forall k | 0 <= k <= |x| && k <= |y| ensures x[..k] == y[..k] <==> a[..k + 1] == b[..k + 1] {
      SamePrefix(a, b, k);
    }
    if |a| < |b| {
      assert a[..|a|] == a && x[..|x|] == x;
    }
    if k :| 0 <= k < |a| && k < |b| && a[..k] == b[..k] && a[k] < b[k] {
      assert k > 0 && x[..k - 1] == y[..k - 1] && x[k - 1] < y[k - 1];
    }
    if k :| 0 <= k < |x| && k < |y| && x[..k] == y[..k] && x[k] < y[k] {
      assert a[..k + 1] == b[..k + 1] && a[k + 1] < b[k + 1];
    }
  }

  /** A list of all these names, each one before the next. */
  ghost predicate InOrder(r: seq<Bytes>, names: set<Bytes>) {
    && (forall n :: n in r <==> n in names)
    && forall i | 0 <= i < |r| - 1 :: Precedes(r[i], r[i + 1])
  }

  lemma {:induction false} LessIsStrict(a: Bytes, b: Bytes)
    ensures Less(a, b) ==> !Less(b, a) && a != b
    ensures a == b || Less(a, b) || Less(b, a)
  {
    if a != [] && b != [] && a[0] == b[0] {
      LessIsStrict(a[1..], b[1..]);
      assert a == [a[0]] + a[1..] && b == [b[0]] + b[1..];
    }
  }

  lemma {:induction false} LessIsTransitive(a: Bytes, b: Bytes, c: Bytes)
    requires Less(a, b) && Less(b, c)
    ensures Less(a, c)
  {
    if a != [] && a[0] == b[0] == c[0] {
      LessIsTransitive(a[1..], b[1..], c[1..]);
    }
  }

  ghost predicate Ascending(names: seq<Bytes>) {
    forall i, j | 0 <= i < j < |names| :: Less(names[i], names[j])
  }

  lemma AscendingIsInjective(names: seq<Bytes>, i: int, j: int)
    requires Ascending(names) && 0 <= i < |names| && 0 <= j < |names| && names[i] == names[j]
    ensures i == j
  {
    LessIsStrict(names[i], names[j]);
  }

  /** The last position of a name in a list, or -1. */
  function IndexOf<T(==)>(names: seq<T>, name: T): (r: int)
    ensures -1 <= r < |names|
    ensures r >= 0 ==> names[r] == name
    ensures r < 0 <==> name !in names
  {
    if names == [] then -1
    else if names[|names| - 1] == name then |names| - 1
    else IndexOf(names[..|names| - 1], name)
  }

  lemma IndexOfAt(names: seq<Bytes>, i: int)
    requires Ascending(names) && 0 <= i < |names|
    ensures IndexOf(names, names[i]) == i
  {
    AscendingIsInjective(names, i, IndexOf(names, names[i]));
  }

  ghost function Elements(names: seq<Bytes>): set<Bytes> { set n | n in names }

  /** A set of names has only one ascending listing. */
  lemma {:induction false} AscendingIsUnique(xs: seq<Bytes>, ys: seq<Bytes>)
    requires Ascending(xs) && Ascending(ys)
    requires forall n :: n in xs <==> n in ys
    ensures xs == ys
  {
    var x := if xs == [] then [] else xs[|xs| - 1];
    var y := if ys == [] then [] else ys[|ys| - 1];
    assert (xs == [] || x in ys) && (ys == [] || y in xs);
    if xs != [] && ys != [] {
      LessIsStrict(x, y);
      assert x == y;
      var xs', ys' := xs[..|xs| - 1], ys[..|ys| - 1];
      LessIsStrict(x, x);
      assert forall n :: n in xs' <==> n in xs && n != x;
      assert forall n :: n in ys' <==> n in ys && n != y;
      AscendingIsUnique(xs', ys');
      assert xs == xs' + [x] && ys == ys' + [y];
    }
  }

  /** Insertion into an ascending list; a name already there stays once. */
  function Inserted(names: seq<Bytes>, name: Bytes): seq<Bytes> {
    if names == [] || Less(names[|names| - 1], name) then names + [name]
    else if names[|names| - 1] == name then names
    else Inserted(names[..|names| - 1], name) + [names[|names| - 1]]
  }

  lemma {:induction false} InsertedAscends(names: seq<Bytes>, name: Bytes)
    requires Ascending(names)
    ensures Ascending(Inserted(names, name))
    ensures forall n :: n in Inserted(names, name) <==> n in names || n == name
  {
    if names == [] {
    } else if Less(names[|names| - 1], name) {
      forall i | 0 <= i < |names| - 1 ensures Less(names[i], name) {
        LessIsTransitive(names[i], names[|names| - 1], name);
      }
    } else if names[|names| - 1] != name {
      var init, last := names[..|names| - 1], names[|names| - 1];
      InsertedAscends(init, name);
      LessIsStrict(last, name);
      var r := Inserted(init, name);
      forall i | 0 <= i < |r| ensures Less(r[i], last) {
        assert r[i] in r;
      }
      assert names == init + [last];
    }
  }

  /** The ascending listing of a set of names: what sort.Strings leaves. */
  ghost function Sorted(names: set<Bytes>): (r: seq<Bytes>)
    ensures Ascending(r)
    ensures forall n :: n in r <==> n in names
  {
    if names == {} then []
    else
      var n :| n in names;
      var rest := Sorted(names - {n});
      InsertedAscends(rest, n);
      Inserted(rest, n)
  }

  lemma {:induction false} AscendingCount(names: seq<Bytes>)
    requires Ascending(names)
    ensures |Elements(names)| == |names|
  {
    if names == [] {
      assert Elements(names) == {};
    } else {
      var init, last := names[..|names| - 1], names[|names| - 1];
      AscendingCount(init);
      LessIsStrict(last, last);
      assert names == init + [last];
      assert Elements(names) == Elements(init) + {last};
    }
  }

  /** Sorting loses and repeats nothing. */
  lemma SortedCount(names: set<Bytes>)
    ensures |Sorted(names)| == |names|
  {
    AscendingCount(Sorted(names));
    assert Elements(Sorted(names)) == names;
  }

  /** What is sorted stands in order, and nothing else does. */
  lemma SortedExactly(names: set<Bytes>, r: seq<Bytes>)
    ensures r == Sorted(names) <==> InOrder(r, names)
  {
    hide Precedes, Ascending;
    AscendingMeans(r);
    if Ascending(r) && InOrder(r, names) {
      AscendingIsUnique(r, Sorted(names));
    }
  }

  /** The order of a list of names is that of its neighbours. */
  lemma AscendingMeans(r: seq<Bytes>)
    ensures Ascending(r) <==> forall i | 0 <= i < |r| - 1 :: Precedes(r[i], r[i + 1])
  {
    hide Less, Precedes;
    forall i | 0 <= i < |r| - 1 ensures Less(r[i], r[i + 1]) <==> Precedes(r[i], r[i + 1]) {
      LessMeans(r[i], r[i + 1]);
    }
    if forall i | 0 <= i < |r| - 1 :: Less(r[i], r[i + 1]) {
      forall i, j | 0 <= i < j < |r| ensures Less(r[i], r[j]) {
        NeighboursAscend(r, i, j);
      }
    }
  }

  lemma {:induction false} NeighboursAscend(r: seq<Bytes>, i: nat, j: nat)
    requires i < j < |r| && forall k | 0 <= k < |r| - 1 :: Less(r[k], r[k + 1])
    ensures Less(r[i], r[j])
    decreases j
  {
    hide Less;
    if i < j - 1 {
      NeighboursAscend(r, i, j - 1);
      assert Less(r[j - 1], r[j - 1 + 1]);
      LessIsTransitive(r[i], r[j - 1], r[j]);
    }
  }

  /** sort.Strings on the keys of a map, one insertion at a time. */
  method SortNames(names: set<Bytes>) returns (r: seq<Bytes>)
    ensures r == Sorted(names) && InOrder(r, names)
  {
    r := [];
    var rest := names;
    while rest != {}
      invariant rest <= names && Ascending(r)
      invariant forall n :: n in r <==> n in names && n !in rest
      decreases rest
    {
      var n :| n in rest;
      InsertedAscends(r, n);
      r := Inserted(r, n);
      rest := rest - {n};
    }
    AscendingIsUnique(r, Sorted(names));
    SortedExactly(names, r);
  }
}
