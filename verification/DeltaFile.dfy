/** A delta as a file, and the theorems about opening it over its snapshot. */
module DeltaFiles {
  import opened ByteCodec
  import opened Names
  import opened Trees
  import opened Reader
  import opened StoredShapes
  import opened Containers
  import opened SnapshotFormat
  import opened DeltaValues
  import opened DeltaFormat
  import opened DeltaFrame
  import opened DeltaProof
  import opened Lookups

  // ---- The sorted override table ----

  /** Insertion into an increasing list of offsets. */
  function InsertedKey(keys: seq<nat>, k: nat): seq<nat> {
    if keys == [] || keys[|keys| - 1] < k then keys + [k]
    else if keys[|keys| - 1] == k then keys
    else InsertedKey(keys[..|keys| - 1], k) + [keys[|keys| - 1]]
  }

  lemma {:induction false} InsertedKeyIncreases(keys: seq<nat>, k: nat)
    requires Increasing(keys)
    ensures Increasing(InsertedKey(keys, k))
    ensures forall x :: x in InsertedKey(keys, k) <==> x in keys || x == k
    ensures |InsertedKey(keys, k)| == |keys| + (if k in keys then 0 else 1)
  {
    if keys != [] && keys[|keys| - 1] > k {
      var init, last := keys[..|keys| - 1], keys[|keys| - 1];
      InsertedKeyIncreases(init, k);
      var r := InsertedKey(init, k);
      forall i | 0 <= i < |r| ensures r[i] < last {
        assert r[i] in r;
      }
      assert keys == init + [last];
    }
  }

  ghost function SortedKeys(keys: set<nat>): (r: seq<nat>)
    ensures Increasing(r) && |r| == |keys|
    ensures forall k :: k in r <==> k in keys
  {
    if keys == {} then []
    else
      var k :| k in keys;
      var rest := SortedKeys(keys - {k});
      InsertedKeyIncreases(rest, k);
      InsertedKey(rest, k)
  }

  lemma {:induction false} IncreasingIsUnique(xs: seq<nat>, ys: seq<nat>)
    requires Increasing(xs) && Increasing(ys) && |xs| == |ys|
    requires forall n :: n in xs <==> n in ys
    ensures xs == ys
  {
    if xs != [] {
      var x, y := xs[|xs| - 1], ys[|ys| - 1];
      assert x in ys && y in xs;
      assert x == y;
      var xs', ys' := xs[..|xs| - 1], ys[..|ys| - 1];
      assert forall n :: n in xs' <==> n in xs && n != x;
      assert forall n :: n in ys' <==> n in ys && n != y;
      IncreasingIsUnique(xs', ys');
      assert xs == xs' + [x] && ys == ys' + [y];
    }
  }

  /** sort.Ints on the keys of the override map. */
  method SortKeys(keys: set<nat>) returns (r: seq<nat>)
    ensures r == SortedKeys(keys)
  {
    r := [];
    var rest := keys;
    while rest != {}
      invariant rest <= keys && Increasing(r) && |r| + |rest| == |keys|
      invariant forall n :: n in r <==> n in keys && n !in rest
      decreases rest
    {
      var n :| n in rest;
      InsertedKeyIncreases(r, n);
      r := InsertedKey(r, n);
      rest := rest - {n};
    }
    IncreasingIsUnique(r, SortedKeys(keys));
  }

  function OverValues(over: map<int, int>, keys: seq<nat>): (r: seq<int>)
    requires forall i | 0 <= i < |keys| :: keys[i] in over
    ensures |r| == |keys|
  {
    seq(|keys|, i requires 0 <= i < |keys| => over[keys[i]])
  }

  /** The keys of the override map; every one of them is a place in the snapshot. */
  ghost function TableKeys(over: map<int, int>): (r: seq<nat>)
    ensures Increasing(r) && forall i | 0 <= i < |r| :: r[i] in over
  {
    var r := SortedKeys(set k: nat | k in over);
    assert forall i | 0 <= i < |r| :: r[i] in r;
    r
  }

  lemma TableReadBack(over: map<int, int>)
    requires forall k | k in over :: k >= 0
    ensures var keys := TableKeys(over);
            |keys| == |over| && TableMap(keys, OverValues(over, keys)) == over
  {
    var ks := set k: nat | k in over;
    assert over.Keys == ks;
    assert |over.Keys| == |over|;
  }

  // ---- The file ----

  /** The override table that closes a delta. */
  ghost function TableBytes(over: map<int, int>): Bytes {
    var keys := TableKeys(over);
    PutVarint(|over|) + Words(keys) + Words(OverValues(over, keys))
  }

  /** The comparison of two documents from their roots, behind the header; the new one is
      stored as `sb`. */
  ghost function RootDiff(a: Bytes, ta: Tree, tb: Tree, sb: Stored): Diffed
    requires Doc(sb) == tb && Proper(ta) && Proper(tb) && Denotes(Snapshot(a), 0, ta)
  {
    Diff(a, 0, ta, tb, sb, false, |a| + 4, map[], EMPTY)
  }

  /** diff: a header that points at the override table, the new values, the table. */
  ghost function DeltaFile(a: Bytes, ta: Tree, tb: Tree, sb: Stored): Bytes
    requires Doc(sb) == tb && Proper(ta) && Proper(tb) && Denotes(Snapshot(a), 0, ta)
  {
    var d := RootDiff(a, ta, tb, sb);
    Be32(4 + |d.out|) + d.out + TableBytes(d.over)
  }

  /** Two documents with objects at their roots, the first one a snapshot. */
  ghost predicate Comparable(a: Bytes, ta: Tree, tb: Tree) {
    && ta.Obj? && tb.Obj? && Proper(ta) && Proper(tb)
    && Denotes(Snapshot(a), 0, ta) && Apart(a, 0, ta)
  }

  /** Override isolation: the table of a delta overrides only arrays and objects of
      the old document, which have one slot each; so no override changes what is
      read along any other path. */
  lemma OverridesAreIsolated(a: Bytes, ta: Tree, tb: Tree, sb: Stored)
    requires Doc(sb) == tb && Comparable(a, ta, tb)
    ensures var d := RootDiff(a, ta, tb, sb);
            && !d.changed && forall k | k in d.over ::
                 IsContainer(a, k) && Inside(a, 0, ta, k) && |a| + 4 <= d.over[k] < |a| + 4 + |d.out|
  {
    DiffFrame(a, 0, ta, tb, sb, false, |a| + 4, map[], EMPTY);
    RootUnchanged(a, ta, tb, sb);
    hide Inside, Diff;
    var d := RootDiff(a, ta, tb, sb);
    forall k | k in d.over ensures Inside(a, 0, ta, k) {
      assert SameAt(d.over, map[], k) ==> k !in d.over;
    }
  }

  lemma RootUnchanged(a: Bytes, ta: Tree, tb: Tree, sb: Stored)
    requires Doc(sb) == tb && Comparable(a, ta, tb)
    ensures !RootDiff(a, ta, tb, sb).changed
  {
    ObjectFields(a, 0, ta, tb, sb);
    DiffIsDiffObject(a, 0, ta, tb, sb, false, |a| + 4, map[], EMPTY);
    hide Denotes, Apart, CompareUpto, AddUpto;
  }

  lemma OffsetsFit(over: map<int, int>, a: Bytes, bound: int)
    requires OnlyContainers(over, a) && |a| <= bound < TWO_31
    requires forall k | k in over :: 0 <= over[k] < bound
    ensures var keys := TableKeys(over); AllInt32(keys) && AllInt32(OverValues(over, keys))
  {
    var keys := TableKeys(over);
    forall i | 0 <= i < |keys| ensures IsInt32(keys[i]) && IsInt32(over[keys[i]]) {
      assert keys[i] in over;
    }
  }

  /** Opening a delta finds its override table. */
  lemma TableIsRead(delta: Bytes, out: Bytes, count: nat, keys: seq<int>, vals: seq<int>, h: Bytes, n: Bytes, w: Bytes, x: Bytes)
    requires h == Be32(4 + |out|) && n == PutVarint(count) && w == Words(keys) && x == Words(vals)
    requires delta == h + out + n + w + x && |delta| < TWO_31 && |keys| == |vals| == count
    requires AllInt32(keys) && AllInt32(vals)
    ensures |delta| >= 4 && I32(delta, 0) == 4 + |out|
    ensures VarintAt(delta, 4 + |out|) == Some((count, 4 + |out| + |n|))
    ensures WordsAt(delta, 4 + |out| + |n|, count) == Some(keys)
    ensures WordsAt(delta, 4 + |out| + |n| + 4 * count, count) == Some(vals)
  {
    hide *;
    WholeIsAt(delta);
    AtParts(delta, 0, delta, h + out, n, w, x);
    AtSplit(delta, 0, h, out);
    Int32Below(4 + |out|, |delta|);
    Int64Below(count, |delta|);
    Be32ReadBack(delta, 0, 4 + |out|);
    VarintReadBack(delta, 4 + |out|, count);
    WordsReadBack(delta, 4 + |out| + |n|, keys);
    WordsReadBack(delta, 4 + |out| + |n| + 4 * count, vals);
  }

  lemma Int64Below(v: int, bound: int)
    requires 0 <= v <= bound < TWO_31
    ensures IsInt64(v)
  {
  }

  lemma WholeIsAt(d: Bytes)
    ensures At(d, 0, d)
  {
  }

  lemma WordsBehind(a: Bytes, delta: Bytes, off: int, n: int)
    requires WordsAt(delta, off, n).Some?
    ensures WordsAt(a + delta, |a| + off, n) == WordsAt(delta, off, n)
  {
    var c, k := a + delta, |a| + off;
    forall i | 0 <= i < n ensures I32(c, k + 4 * i) == I32(delta, off + 4 * i) {
      assert c[k + 4 * i] == delta[off + 4 * i] && c[k + 4 * i + 1] == delta[off + 4 * i + 1];
      assert c[k + 4 * i + 2] == delta[off + 4 * i + 2] && c[k + 4 * i + 3] == delta[off + 4 * i + 3];
    }
    assert WordsAt(c, k, n).value == WordsAt(delta, off, n).value;
  }

  lemma OpenedTables(a: Bytes, delta: Bytes, at: nat, count: nat, n: nat, keys: seq<int>, vals: seq<int>)
    requires |delta| >= 4 && I32(delta, 0) == at && VarintAt(delta, at) == Some((count, n))
    requires WordsAt(delta, n, count) == Some(keys) && WordsAt(delta, n + 4 * count, count) == Some(vals)
    requires Increasing(keys)
    ensures OpenDelta(a, delta).Some? && OpenDelta(a, delta).value.Valid()
    ensures OpenDelta(a, delta).value.View() == Delta(a + delta, |a|, TableMap(keys, vals), true)
  {
    hide WordsAt, VarintAt, I32, TableMap, Increasing;
    WordsBehind(a, delta, n, count);
    WordsBehind(a, delta, n + 4 * count, count);
  }

  /** The reader of a delta applies exactly the overrides that were recorded. */
  lemma OpenedView(a: Bytes, out: Bytes, over: map<int, int>, delta: Bytes)
    requires delta == Be32(4 + |out|) + out + TableBytes(over) && |delta| < TWO_31 && forall k | k in over :: k >= 0
    requires var keys := TableKeys(over); AllInt32(keys) && AllInt32(OverValues(over, keys))
    ensures OpenDelta(a, delta).Some? && OpenDelta(a, delta).value.Valid()
    ensures OpenDelta(a, delta).value.View() == Delta(a + delta, |a|, over, true)
  {
    hide *;
    TableReadBack(over);
    TableBytesAre(over);
    var keys := TableKeys(over);
    var vals := OverValues(over, keys);
    var h, n, w, x := Be32(4 + |out|), PutVarint(|over|), Words(keys), Words(vals);
    assert h + out + (n + w + x) == h + out + n + w + x;
    TableIsRead(delta, out, |over|, keys, vals, h, n, w, x);
    OpenedTables(a, delta, 4 + |out|, |over|, 4 + |out| + |n|, keys, vals);
  }

  lemma TableBytesAre(over: map<int, int>)
    ensures var keys := TableKeys(over);
            TableBytes(over) == PutVarint(|over|) + Words(keys) + Words(OverValues(over, keys))
  {
    hide TableKeys, OverValues, Words, PutVarint;
  }

  lemma StartedAtRoot(a: Bytes, ta: Tree, c: Bytes, v: View)
    requires ta.Obj? && Proper(ta) && Denotes(Snapshot(a), 0, ta) && Apart(a, 0, ta)
    requires Finished(v, a) && a <= c && |a| < |c|
    ensures Started(a, 0, ta, map[], EMPTY, c, v)
  {
  }

  lemma RootSettled(a: Bytes, ta: Tree, over: map<int, int>, v: View)
    requires v.Delta? && v.over == over
    ensures Settled(over, v, a, 0, ta)
  {
  }

  lemma ComparableFacts(a: Bytes, ta: Tree, tb: Tree)
    requires Comparable(a, ta, tb)
    ensures ta.Obj? && tb.Obj? && Proper(ta) && Proper(tb) && Denotes(Snapshot(a), 0, ta) && Apart(a, 0, ta)
  {
  }

  /** The finished delta, as the comparison left it. */
  lemma RootIsFinished(a: Bytes, ta: Tree, tb: Tree, sb: Stored)
    requires Doc(sb) == tb && Comparable(a, ta, tb) && |a + DeltaFile(a, ta, tb, sb)| < TWO_31
    ensures var d, delta := RootDiff(a, ta, tb, sb), DeltaFile(a, ta, tb, sb);
            && Finished(Delta(a + delta, |a|, d.over, true), a) && !d.changed
            && OpenDelta(a, delta).Some? && OpenDelta(a, delta).value.Valid()
            && OpenDelta(a, delta).value.View() == Delta(a + delta, |a|, d.over, true)
  {
    var d, delta := RootDiff(a, ta, tb, sb), DeltaFile(a, ta, tb, sb);
    OverridesAreIsolated(a, ta, tb, sb);
    assert forall k | k in d.over :: IsContainer(a, k);
    assert forall k | k in d.over :: k >= 0;
    hide Denotes, Apart, Inside, RootDiff, TableBytes, IsContainer, Be32, Proper, OpenDelta, TableKeys, OverValues;
    OffsetsFit(d.over, a, |a + delta|);
    OpenedView(a, d.out, d.over, delta);
  }

  lemma DeltaFileParts(a: Bytes, ta: Tree, tb: Tree, sb: Stored)
    requires Doc(sb) == tb && Proper(ta) && Proper(tb) && Denotes(Snapshot(a), 0, ta)
    ensures var d, c := RootDiff(a, ta, tb, sb), a + Be32(4 + |RootDiff(a, ta, tb, sb).out|);
            && |c| == |a| + 4 && a <= c && c + d.out <= a + DeltaFile(a, ta, tb, sb)
            && d == Diff(a, 0, ta, tb, sb, false, |c|, map[], EMPTY)
  {
    hide Denotes, Proper, Be32, TableBytes, Diff;
    var d := RootDiff(a, ta, tb, sb);
    assert a + DeltaFile(a, ta, tb, sb) == a + Be32(4 + |d.out|) + d.out + TableBytes(d.over);
  }

  lemma DiffOKUnchanged(r: Diffed, a: Bytes, aoff: int, tb: Tree, c: Bytes, v: View)
    requires v.Delta? && DiffOK(r, a, aoff, tb, c, v) && !r.changed
    ensures Denotes(v, aoff, tb)
  {
  }

  /** Delta correctness: opening the snapshot `a` with its delta to `tb` and reading
      from the root gives exactly `tb`: every name, every value, at any depth. It does not
      matter how the new version is stored, though the bytes of the delta depend on it. */
  lemma DeltaCorrect(a: Bytes, ta: Tree, tb: Tree, sb: Stored)
    requires Doc(sb) == tb && Comparable(a, ta, tb) && |a + DeltaFile(a, ta, tb, sb)| < TWO_31
    ensures OpenDelta(a, DeltaFile(a, ta, tb, sb)).Some? && OpenDelta(a, DeltaFile(a, ta, tb, sb)).value.Valid()
    ensures Denotes(OpenDelta(a, DeltaFile(a, ta, tb, sb)).value.View(), 0, tb)
  {
    hide *;
    ComparableFacts(a, ta, tb);
    var d, delta := RootDiff(a, ta, tb, sb), DeltaFile(a, ta, tb, sb);
    var v, c := Delta(a + delta, |a|, d.over, true), a + Be32(4 + |d.out|);
    RootIsFinished(a, ta, tb, sb);
    DeltaFileParts(a, ta, tb, sb);
    StartedAtRoot(a, ta, c, v);
    RootSettled(a, ta, d.over, v);
    DiffCorrect(a, 0, ta, tb, sb, false, map[], EMPTY, c, v);
    DiffOKUnchanged(d, a, 0, tb, c, v);
  }

  /** A delta without overrides means that nothing has changed. */
  lemma NoOverridesMeansEqual(a: Bytes, ta: Tree, tb: Tree, sb: Stored)
    requires Doc(sb) == tb && Comparable(a, ta, tb) && |a + DeltaFile(a, ta, tb, sb)| < TWO_31
    requires RootDiff(a, ta, tb, sb).over == map[]
    ensures ta == tb
  {
    hide *;
    ComparableFacts(a, ta, tb);
    DeltaCorrect(a, ta, tb, sb);
    RootIsFinished(a, ta, tb, sb);
    var v := Delta(a + DeltaFile(a, ta, tb, sb), |a|, map[], true);
    NothingInside(a, ta);
    UntouchedDenotes(a, 0, ta, v);
    DenotesUnique(v, 0, ta, tb);
  }

  lemma NothingInside(a: Bytes, ta: Tree)
    ensures Fresh(map[], a, 0, ta)
  {
  }

  /** End to end: a document that was written as a snapshot, opened with the delta to
      another document, reads as the other document's value, however that one is stored. */
  lemma SnapshotPlusDelta(before: Tree, after: Tree, sb: Stored)
    requires Doc(sb) == Repr(after) && before.Obj? && after.Obj? && Proper(before) && Proper(after) && Plain(after) && |Snap(before)| < TWO_31
    ensures Comparable(Snap(before), Repr(before), Repr(after)) && Value(Repr(after)) == after
    ensures var a := Snap(before);
            var delta := DeltaFile(a, Repr(before), Repr(after), sb);
            |a + delta| < TWO_31 ==>
              && OpenDelta(a, delta).Some? && OpenDelta(a, delta).value.Valid()
              && Denotes(OpenDelta(a, delta).value.View(), 0, Repr(after))
  {
    hide Denotes, Apart, Proper, OpenDelta, DeltaFile;
    SnapshotRoundTrip(before);
    ReprIsProper(before);
    ReprIsProper(after);
    ReprKeepsValue(after);
    if |Snap(before) + DeltaFile(Snap(before), Repr(before), Repr(after), sb)| < TWO_31 {
      DeltaCorrect(Snap(before), Repr(before), Repr(after), sb);
    }
  }
}
