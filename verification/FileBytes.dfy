/** Files, byte by byte: what the numbers, scalars, objects and patches of the format look
    like, and a whole snapshot and a whole delta. */
module FileBytes {
  import opened ByteCodec
  import opened Names
  import opened Trees
  import opened Reader
  import opened StoredShapes
  import opened Containers
  import opened SnapshotFormat
  import opened WrittenShapes
  import opened DeltaFormat
  import opened DeltaFrame
  import opened DeltaProof
  import opened DeltaFiles
  import opened DeltaEmpty
  import opened SettledSnapshots
  import opened ArrayReuse

  // ---- Numbers ----

  /** Words are big-endian. */
  lemma WordBytes(v: int)
    ensures var b := Be32(v);
            v % 0x1_0000_0000 == b[0] as int * 0x100_0000 + b[1] as int * 0x1_0000 + b[2] as int * 0x100 + b[3] as int
  {
    var b := Be32(v);
    assert b[0..4] == b;
    Be32ReadBack(b, 0, v);
    hide Be32;
  }

  /** The first `n` groups of seven bits, the lowest first. */
  ghost function GroupSum(s: Bytes, n: nat): int
    requires n <= |s|
  {
    if n == 0 then 0 else GroupSum(s, n - 1) + (s[n - 1] as int % 0x80) * Groups(n - 1)
  }

  /** 128 to the power of `k`. */
  ghost function Groups(k: nat): int { if k == 0 then 1 else 0x80 * Groups(k - 1) }

  lemma {:induction false} GroupShift(x: Byte, s: Bytes, n: nat)
    requires n <= |s|
    ensures GroupSum([x] + s, n + 1) == x as int % 0x80 + 0x80 * GroupSum(s, n)
  {
    var t := [x] + s;
    if n == 0 {
      assert GroupSum(t, 0) == 0 && Groups(0) == 1;
    } else {
      GroupShift(x, s, n - 1);
      assert t[n] == s[n - 1] && Groups(n) == 0x80 * Groups(n - 1);
    }
  }

  /** A number of variable length is the sum of its groups; all bytes but the last have the
      high bit set. */
  lemma {:induction false} UvarintBytes(u: nat)
    ensures var s := PutUvarint(u);
            GroupSum(s, |s|) == u && forall i | 0 <= i < |s| :: s[i] >= 0x80 <==> i < |s| - 1
  {
    PutStep(u);
    if u < 0x80 {
      OneGroup(u);
    } else {
      UvarintBytes(u / 0x80);
      hide PutUvarint, GroupSum;
      var rest := PutUvarint(u / 0x80);
      GroupShift(u % 0x80 + 0x80, rest, |rest|);
      LowGroup(u);
    }
  }

  lemma PutStep(u: nat)
    ensures PutUvarint(u) == if u < 0x80 then [u] else [u % 0x80 + 0x80] + PutUvarint(u / 0x80)
  {
  }

  lemma OneGroup(u: Byte)
    requires u < 0x80
    ensures GroupSum([u], 1) == u as int
  {
    assert GroupSum([u], 0) == 0 && Groups(0) == 1;
  }

  lemma LowGroup(u: nat)
    ensures (u % 0x80 + 0x80) % 0x80 + 0x80 * (u / 0x80) == u
  {
  }

  /** A signed number takes twice its value, and one less when it is negative. */
  lemma VarintBytes(v: int)
    ensures PutVarint(v) == PutUvarint(if v >= 0 then 2 * v else -2 * v - 1)
    ensures PutVarint(0) == [0] && PutVarint(-1) == [1] && PutVarint(1) == [2] && PutVarint(64) == [128, 1]
  {
    assert PutUvarint(1) == [1];
  }

  // ---- Scalars ----

  lemma ScalarsInBytes()
    ensures ScalarBytes(Null) == [1] && ScalarBytes(False) == [2] && ScalarBytes(True) == [3]
    ensures ScalarBytes(Str([98])) == [4, 2, 98] && ScalarBytes(Int(7)) == [5, 14] && ScalarBytes(Int(-1)) == [5, 1]
    ensures ScalarBytes(Num([49])) == [6, 2, 49] && ScalarBytes(Blob([9])) == [11, 2, 9]
  {
    VarintBytes(0);
    assert PutUvarint(14) == [14];
  }

  // ---- A snapshot ----

  /** {"a": [null, "b", {"a": false}]} */
  function Sample(): Tree { Field(97, Arr(SampleElements())) }

  function SampleElements(): seq<Tree> { [Leaf(Null), Leaf(Str([98])), Field(97, Leaf(False))] }

  lemma TwoWords(v: int, w: int)
    ensures Words([v]) == Be32(v) && Words([v, w]) == Be32(v) + Be32(w)
  {
    WordsNone();
    WordsAppend([], v);
    WordsAppend([v], w);
    assert [] + [v] == [v] && [v] + [w] == [v, w];
  }

  lemma ThreeWords(u: int, v: int, w: int)
    ensures Words([u, v, w]) == Be32(u) + Be32(v) + Be32(w)
  {
    TwoWords(u, v);
    WordsAppend([u, v], w);
    assert [u, v] + [w] == [u, v, w];
  }

  lemma OneKid(t: Tree, base: int, len: nat, cache: Cache)
    ensures var r := Write(t, base, len, cache);
            WriteUpto([t], 1, base, len, cache) == WrittenAll([r.off], r.out, r.cache)
  {
    hide Write;
    UptoNone([t], base, len, cache);
    WriteUptoStep([t], 1, base, len, cache);
  }

  /** The second object is thin: it points at the first one, which has the same name. */
  lemma ThinSample(cache: Cache)
    requires cache.types == map[[[97]] := 0]
    ensures Write(Field(97, Leaf(False)), 0, 29, cache) == Written(29, [9, 0, 0, 0, 0, 255, 255, 255, 254], cache)
  {
    hide WriteUpto, Words;
    OneKid(Leaf(False), 0, 38, cache);
    FalseEmbedded(0, 38, cache);
    hide Write;
    ThinBytes();
    ThinParts([[97]], [Leaf(False)], 0, 29, cache);
  }

  lemma ThinParts(names: seq<Bytes>, vals: seq<Tree>, base: int, len: nat, cache: Cache)
    requires names in cache.types && cache.types[names] != base + len
    ensures var kids := WriteUpto(vals, |vals|, base, len + 5 + 4 * |vals|, cache);
            Write(Obj(names, vals), base, len, cache)
            == Written(base + len, [T_OBJECT_THIN] + Be32(cache.types[names]) + Words(kids.offs) + kids.out, kids.cache)
  {
    hide WriteUpto, Words, Be32;
  }

  lemma ThinBytes()
    ensures [T_OBJECT_THIN] + Be32(0) + Words([-2]) + [] == [9, 0, 0, 0, 0, 255, 255, 255, 254]
  {
    TwoWords(-2, 0);
  }

  lemma FalseEmbedded(base: int, len: nat, cache: Cache)
    requires len > 0
    ensures Write(Leaf(False), base, len, cache) == Written(-2, [], cache)
  {
  }

  lemma FirstOfSample(cache: Cache)
    ensures WriteUpto(SampleElements(), 1, 0, 26, cache) == WrittenAll([-1], [], cache)
  {
    hide Write, WriteUpto;
    UptoNone(SampleElements(), 0, 26, cache);
    WriteUptoStep(SampleElements(), 1, 0, 26, cache);
    NullEmbedded(0, 26, cache);
  }

  lemma SecondOfSample(cache: Cache)
    requires cache == Cache(map[[[97]] := 0], map[], map[])
    ensures WriteUpto(SampleElements(), 2, 0, 26, cache)
         == WrittenAll([-1, 26], [4, 2, 98], cache.(strs := map[[98] := 26]))
  {
    hide Write, WriteUpto;
    FirstOfSample(cache);
    WriteUptoStep(SampleElements(), 2, 0, 26, cache);
    StringSample(cache);
  }

  lemma ElementsOfSample(cache: Cache)
    requires cache == Cache(map[[[97]] := 0], map[], map[])
    ensures WriteUpto(SampleElements(), 3, 0, 26, cache)
         == WrittenAll([-1, 26, 29], [4, 2, 98, 9, 0, 0, 0, 0, 255, 255, 255, 254], cache.(strs := map[[98] := 26]))
  {
    hide *;
    SampleIs();
    SecondOfSample(cache);
    WriteUptoStep(SampleElements(), 3, 0, 26, cache);
    ThinSample(cache.(strs := map[[98] := 26]));
  }

  lemma SampleIs()
    ensures SampleElements() == [Leaf(Null), Leaf(Str([98])), Field(97, Leaf(False))]
  {
  }

  lemma NullEmbedded(base: int, len: nat, cache: Cache)
    requires len > 0
    ensures Write(Leaf(Null), base, len, cache) == Written(-1, [], cache)
  {
  }

  lemma StringSample(cache: Cache)
    requires cache == Cache(map[[[97]] := 0], map[], map[])
    ensures Write(Leaf(Str([98])), 0, 26, cache) == Written(26, [4, 2, 98], cache.(strs := map[[98] := 26]))
  {
    hide ScalarBytes;
    ScalarsInBytes();
    assert DigitsValue([98]) == None;
  }

  lemma ArrayOfSample(cache: Cache)
    requires cache == Cache(map[[[97]] := 0], map[], map[])
    ensures var r := Write(Arr(SampleElements()), 0, 12, cache);
            && r.off == 12
            && r.out == [7, 6, 255, 255, 255, 255, 0, 0, 0, 26, 0, 0, 0, 29] + [4, 2, 98, 9, 0, 0, 0, 0, 255, 255, 255, 254]
  {
    hide *;
    var kids, head := WriteArrayParts(SampleElements(), 0, 12, cache);
    ArrayLiteral();
    ElementsOfSample(cache);
  }

  lemma ArrayLiteral()
    ensures |SampleElements()| == 3
    ensures forall offs: seq<int> | |offs| == 3 :: |[T_ARRAY] + PutVarint(3) + Words(offs)| == 14
    ensures [T_ARRAY] + PutVarint(3) + Words([-1, 26, 29]) == [7, 6, 255, 255, 255, 255, 0, 0, 0, 26, 0, 0, 0, 29]
  {
    assert PutUvarint(6) == [6];
    ThreeWords(-1, 26, 29);
    hide Words, PutVarint;
  }

  lemma FullParts(names: seq<Bytes>, vals: seq<Tree>, base: int, len: nat, cache: Cache)
    requires !(names in cache.types && cache.types[names] != base + len)
    ensures var head, named := [T_OBJECT_FULL] + PutVarint(|names|), NameBytes(names, |names|);
            var start := |head| + 4 * |names| + 4 * |vals|;
            var kids := WriteUpto(vals, |vals|, base, len + start + |named|, cache.(types := cache.types[names := base + len]));
            Write(Obj(names, vals), base, len, cache).out
            == head + Words(NameOffsets(names, base + len + start)) + Words(kids.offs) + named + kids.out
  {
    hide WriteUpto, Words, PutVarint, NameBytes, NameOffsets;
  }

  lemma FullBytes()
    ensures [T_OBJECT_FULL] + PutVarint(1) + Words([10]) + Words([12]) + [2, 97] == [8, 2, 0, 0, 0, 10, 0, 0, 0, 12, 2, 97]
  {
    VarintBytes(1);
    TwoWords(10, 0);
    TwoWords(12, 0);
  }

  /** The snapshot of a document, all of it. */
  lemma SnapshotInBytes()
    ensures Snap(Sample())
         == [8, 2, 0, 0, 0, 10, 0, 0, 0, 12, 2, 97]
            + ([7, 6, 255, 255, 255, 255, 0, 0, 0, 26, 0, 0, 0, 29] + [4, 2, 98, 9, 0, 0, 0, 0, 255, 255, 255, 254])
  {
    hide Write, WriteUpto, Words, NameBytes, NameOffsets, PutVarint;
    var names: seq<Bytes> := [[97]];
    var vals := [Arr(SampleElements())];
    var cache := Cache(map[names := 0], map[], map[]);
    NamesOfSample();
    FullBytes();
    VarintBytes(1);
    FullParts(names, vals, 0, 0, EMPTY);
    assert EMPTY.(types := EMPTY.types[names := 0]) == cache;
    OneKid(vals[0], 0, 12, cache);
    ArrayOfSample(cache);
  }

  lemma NamesOfSample()
    ensures var names: seq<Bytes> := [[97]]; NameBytes(names, 1) == [2, 97] && NameOffsets(names, 10) == [10]
  {
    VarintBytes(1);
    var names: seq<Bytes> := [[97]];
    assert NameBytes(names, 0) == [];
    assert NameOffsets(names, 10)[0] == 10;
  }

  // ---- A delta ----

  /** {"a": null} and {"a": true} */
  function Old(): Tree { Field(97, Leaf(Null)) }

  function New(): Tree { Field(97, Leaf(True)) }

  lemma OldInBytes()
    ensures Snap(Old()) == [8, 2, 0, 0, 0, 10, 255, 255, 255, 255, 2, 97]
  {
    hide Write, WriteUpto, Words, NameBytes, NameOffsets, PutVarint, Be32;
    var names: seq<Bytes> := [[97]];
    var cache := Cache(map[names := 0], map[], map[]);
    NamesOfSample();
    OldHead();
    VarintBytes(1);
    FullParts(names, [Leaf(Null)], 0, 0, EMPTY);
    assert EMPTY.(types := EMPTY.types[names := 0]) == cache;
    OneKid(Leaf(Null), 0, 12, cache);
    NullEmbedded(0, 12, cache);
  }

  lemma OldHead()
    ensures [T_OBJECT_FULL] + PutVarint(1) + Words([10]) + Words([-1]) + [2, 97] + []
         == [8, 2, 0, 0, 0, 10, 255, 255, 255, 255, 2, 97]
  {
    VarintBytes(1);
    TwoWords(10, 0);
    TwoWords(-1, 0);
  }

  /** The only object of the old snapshot: its name stands at 10, its value is embedded. */
  lemma OldNode(a: Bytes)
    requires a == [8, 2, 0, 0, 0, 10, 255, 255, 255, 255, 2, 97] && Denotes(Snapshot(a), 0, Old())
    ensures NodeAt(Snapshot(a), 0) == Some(NObj(1, [[97]], [10], [-1]))
  {
    var n := NodeAt(Snapshot(a), 0).value;
    assert Matches(n, Old()) && RawObject(a, 0) == Some(n);
    OldTables(a);
    hide Denotes, WordsAt, VarintAt, NamesFrom, StringAt;
  }

  lemma OldTables(a: Bytes)
    requires a == [8, 2, 0, 0, 0, 10, 255, 255, 255, 255, 2, 97]
    ensures VarintAt(a, 1) == Some((1, 2)) && WordsAt(a, 2, 1) == Some([10]) && WordsAt(a, 6, 1) == Some([-1])
  {
    OldParts(a);
    hide *;
    VarintReadBack(a, 1, 1);
    WordsReadBack(a, 2, [10]);
    WordsReadBack(a, 6, [-1]);
  }

  lemma OldParts(a: Bytes)
    requires a == [8, 2, 0, 0, 0, 10, 255, 255, 255, 255, 2, 97]
    ensures |PutVarint(1)| == 1 && IsInt64(1) && AllInt32([10]) && AllInt32([-1])
    ensures At(a, 1, PutVarint(1)) && At(a, 2, Words([10])) && At(a, 6, Words([-1]))
  {
    VarintBytes(1);
    TwoWords(10, 0);
    TwoWords(-1, 0);
    hide PutVarint, Words;
    assert a[1..2] == [2] && a[2..6] == [0, 0, 0, 10] && a[6..10] == [255, 255, 255, 255];
  }

  lemma OneName(changes: map<Bytes, Slot>)
    requires changes == map[[97] := Slot(10, -3)]
    ensures |changes| == 1 && Sorted(changes.Keys) == [[97]]
    ensures ChangeNames(changes, [[97]]) == [10] && ChangeValues(changes, [[97]]) == [-3]
  {
    assert changes.Keys == {[97]};
    hide Less;
    AscendingIsUnique(Sorted(changes.Keys), [[97]]);
  }

  lemma PatchParts(aoff: int, len: nat, changes: map<Bytes, Slot>)
    ensures var names := Sorted(changes.Keys);
            PatchBytes(aoff, len, changes) == [T_OBJECT_PATCH] + Be32(aoff) + PutVarint(len) + PutVarint(|changes|)
                                              + Words(ChangeNames(changes, names)) + Words(ChangeValues(changes, names))
  {
    hide Words, PutVarint, Be32, ChangeNames, ChangeValues, Sorted;
  }

  lemma PatchLiteral()
    ensures [T_OBJECT_PATCH] + Be32(0) + PutVarint(1) + PutVarint(1) + Words([10]) + Words([-3])
         == [10, 0, 0, 0, 0, 2, 2, 0, 0, 0, 10, 255, 255, 255, 253]
  {
    VarintBytes(1);
    TwoWords(10, 0);
    TwoWords(-3, 0);
    hide Words, PutVarint;
  }

  /** The patch of one changed value: the object underneath, its size, the number of changes,
      the place of the name and the new value, which is embedded. */
  lemma PatchInBytes()
    ensures PatchBytes(0, 1, map[[97] := Slot(10, -3)]) == [10, 0, 0, 0, 0, 2, 2, 0, 0, 0, 10, 255, 255, 255, 253]
  {
    hide *;
    var changes: map<Bytes, Slot> := map[[97] := Slot(10, -3)];
    OneName(changes);
    PatchParts(0, 1, changes);
    PatchLiteral();
  }

  lemma OneKey(over: map<int, int>)
    requires over == map[0 := 16]
    ensures |over| == 1 && TableKeys(over) == [0] && OverValues(over, [0]) == [16]
  {
    var ks := set k: nat | k in over;
    assert ks == {0} && |over.Keys| == 1;
    IncreasingIsUnique(TableKeys(over), [0]);
  }

  lemma TableLiteral()
    ensures PutVarint(1) + Words([0]) + Words([16]) == [2, 0, 0, 0, 0, 0, 0, 0, 16]
  {
    VarintBytes(1);
    TwoWords(0, 0);
    TwoWords(16, 0);
    hide Words, PutVarint;
  }

  lemma TableInBytes()
    ensures TableBytes(map[0 := 16]) == [2, 0, 0, 0, 0, 0, 0, 0, 16]
  {
    hide *;
    OneKey(map[0 := 16]);
    TableBytesAre(map[0 := 16]);
    TableLiteral();
  }

  /** The comparison of the two documents: the value is replaced by one that takes no bytes,
      and the object gets a patch. */
  lemma Compared(a: Bytes, f: Fields)
    requires |a| == 12 && f.Valid() && DenotesAll(Snapshot(a), f.voffs, f.tas)
    requires f == Fields([[97]], [10], [-1], [Leaf(Null)], [[97]], [Leaf(True)], [SLeaf(True)])
    ensures DiffObject(a, 0, f, 16, map[], EMPTY)
         == Diffed(16, false, [10, 0, 0, 0, 0, 2, 2, 0, 0, 0, 10, 255, 255, 255, 253], map[0 := 16], EMPTY)
  {
    hide CompareUpto, AddUpto, DiffObject, PatchBytes, Denotes, Diff;
    var p0, p, w := DiffObjectParts(a, 0, f, 16, map[], EMPTY);
    CompareStep(a, f, 0, 16, map[], EMPTY);
    SelfNothing(a, f, 16);
    IndexOfAt(f.bnames, 0);
    FieldReplaced(a);
    assert p0 == KeepName(f, 0, Progress(map[], [], map[], EMPTY), Diffed(-3, true, [], map[], EMPTY));
    var none: map<int, int> := map[];
    assert none - {-1} == none;
    assert p0 == Progress(map[[97] := Slot(10, -3)], [], map[], EMPTY);
    AddsNothing(f, 1, 16, p0);
    PatchInBytes();
    assert w == [10, 0, 0, 0, 0, 2, 2, 0, 0, 0, 10, 255, 255, 255, 253];
    assert [97] in p.changes;
  }

  lemma FieldReplaced(a: Bytes)
    requires Denotes(Snapshot(a), -1, Leaf(Null))
    ensures Diff(a, -1, Leaf(Null), Leaf(True), SLeaf(True), true, 16, map[], EMPTY) == Diffed(-3, true, [], map[], EMPTY)
  {
  }

  /** The delta from {"a": null} to {"a": true}, all of it: the place of the table, the
      patch, and a table with one entry. */
  lemma DeltaInBytes()
    ensures Comparable(Snap(Old()), Old(), New())
    ensures var sb := SObj(T_OBJECT_FULL as int, [[97]], [SLeaf(True)]);
            && Doc(sb) == New()
            && DeltaFile(Snap(Old()), Old(), New(), sb)
               == [0, 0, 0, 19] + [10, 0, 0, 0, 0, 2, 2, 0, 0, 0, 10, 255, 255, 255, 253] + [2, 0, 0, 0, 0, 0, 0, 0, 16]
  {
    hide *;
    var a, sb := Snap(Old()), SObj(T_OBJECT_FULL as int, [[97]], [SLeaf(True)]);
    DeltaReady(sb);
    ComparableFacts(a, Old(), New());
    OldInBytes();
    OldNode(a);
    ObjectFields(a, 0, Old(), New(), sb);
    var f := FieldsOf(NodeAt(Snapshot(a), 0).value, Old(), New(), sb);
    FieldsAre(NodeAt(Snapshot(a), 0).value, sb);
    Compared(a, f);
    DiffIsDiffObject(a, 0, Old(), New(), sb, false, 16, map[], EMPTY);
    RootIsDiff(a, Old(), New(), sb);
    TableInBytes();
    FileIs(a, sb);
  }

  lemma FileIs(a: Bytes, sb: Stored)
    requires Doc(sb) == New() && Proper(Old()) && Proper(New()) && Denotes(Snapshot(a), 0, Old())
    ensures var d := RootDiff(a, Old(), New(), sb);
            DeltaFile(a, Old(), New(), sb) == Be32(4 + |d.out|) + d.out + TableBytes(d.over) && Be32(19) == [0, 0, 0, 19]
  {
    hide RootDiff, TableBytes, Denotes, Proper, Doc;
  }

  lemma FieldsAre(n: Node, sb: Stored)
    requires n == NObj(1, [[97]], [10], [-1]) && sb == SObj(T_OBJECT_FULL as int, [[97]], [SLeaf(True)]) && Doc(sb) == New()
    ensures FieldsOf(n, Old(), New(), sb) == Fields([[97]], [10], [-1], [Leaf(Null)], [[97]], [Leaf(True)], [SLeaf(True)])
  {
  }

  lemma DeltaReady(sb: Stored)
    requires sb == SObj(T_OBJECT_FULL as int, [[97]], [SLeaf(True)])
    ensures Doc(sb) == New() && Comparable(Snap(Old()), Old(), New()) && Old().Obj? && New().Obj? && |Snap(Old())| == 12
  {
    OldInBytes();
    assert Docs(sb.vals) == New().vals;
    OldIsProper();
    SnapReady(Old());
    hide Snap, Denotes, Apart;
  }

  lemma OldIsProper()
    ensures Proper(Old()) && Proper(New()) && Repr(Old()) == Old()
  {
    assert Repr(Old()).vals == Old().vals;
  }
}
