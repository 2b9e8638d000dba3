/** The delta between two documents: which bytes `diff` appends to a snapshot, and
    which offsets of the snapshot it overrides. */
module DeltaFormat {
  import opened ByteCodec
  import opened Names
  import opened Trees
  import opened Reader
  import opened StoredShapes
  import opened Containers
  import opened SnapshotFormat
  import opened DeltaValues

  /** Elements of one type are compared; any others are replaced. */
  function Kind(t: Tree): Byte {
    match t
    case Leaf(s) => Tag(s)
    case Arr(_) => T_ARRAY
    case Obj(_, _) => T_OBJECT_FULL
  }

  /** One comparison: the offset and change flag it reports, the bytes it appends,
      and the overrides and cache it leaves. */
  datatype Diffed = Diffed(off: int, changed: bool, out: Bytes, over: map<int, int>, cache: Cache)

  // ---- Arrays ----

  /** The first element of the old array that is stored just like `s`, or -1. */
  function FirstEqual(ss: seq<Stored>, s: Stored): (r: int)
    ensures -1 <= r < |ss|
    ensures r >= 0 ==> ss[r] == s
  {
    if ss == [] then -1
    else
      var n := |ss| - 1;
      var earlier := FirstEqual(ss[..n], s);
      if earlier >= 0 then earlier else if ss[n] == s then n else -1
  }

  /** Nothing to do: every element is taken from its own place in the old array. */
  predicate SameArray(aoffs: seq<int>, sas: seq<Stored>, sbs: seq<Stored>)
    requires |aoffs| == |sas|
  {
    |sas| == |sbs| && forall i | 0 <= i < |sbs| :: FirstEqual(sas, sbs[i]) >= 0 && aoffs[FirstEqual(sas, sbs[i])] == aoffs[i]
  }

  /** Only equal arrays are reported unchanged. */
  lemma SameArrayIsEqual(v: View, aoffs: seq<int>, tas: seq<Tree>, sbs: seq<Stored>)
    requires DenotesAll(v, aoffs, tas) && SameArray(aoffs, StoredAll(v, aoffs, tas), sbs)
    ensures StoredAll(v, aoffs, tas) == sbs && tas == Docs(sbs)
  {
    hide Denotes, StoredOf, FirstEqual;
    var sas := StoredAll(v, aoffs, tas);
    forall i | 0 <= i < |sbs| ensures sas[i] == sbs[i] {
      var j := FirstEqual(sas, sbs[i]);
      DenotesUnique(v, aoffs[i], tas[i], tas[j]);
      StoredAt(v, aoffs, tas, i);
      StoredAt(v, aoffs, tas, j);
    }
    StoredAllDocs(v, aoffs, tas);
  }

  /** The elements of the new array: old ones by their offset, others copied. */
  function PickUpto(aoffs: seq<int>, sas: seq<Stored>, sbs: seq<Stored>, n: nat, at: int, cache: Cache): (r: WrittenAll)
    requires |aoffs| == |sas| && n <= |sbs|
    ensures |r.offs| == n
  {
    if n == 0 then WrittenAll([], [], cache)
    else
      var before := PickUpto(aoffs, sas, sbs, n - 1, at, cache);
      var j := FirstEqual(sas, sbs[n - 1]);
      if j >= 0 then WrittenAll(before.offs + [aoffs[j]], before.out, before.cache)
      else
        var last := Copy(Doc(sbs[n - 1]), at + |before.out|, true, before.cache);
        WrittenAll(before.offs + [last.off], before.out + last.out, last.cache)
  }

  function DiffArray(aoff: int, aoffs: seq<int>, sas: seq<Stored>, sbs: seq<Stored>, at: int,
                     over: map<int, int>, cache: Cache): Diffed
    requires |aoffs| == |sas|
  {
    if SameArray(aoffs, sas, sbs) then Diffed(0, false, [], over, cache)
    else
      var head := [T_ARRAY] + PutVarint(|sbs|);
      var kids := PickUpto(aoffs, sas, sbs, |sbs|, at + |head| + 4 * |sbs|, cache);
      Diffed(at, false, head + Words(kids.offs) + kids.out, over[aoff := at], kids.cache)
  }

  // ---- Scalars ----

  function DiffLeaf(aoff: int, sa: Scalar, sb: Scalar, at: int, over: map<int, int>, cache: Cache): Diffed {
    if sa == sb then Diffed(0, false, [], over, cache)
    else
      var r := if sb.Str? then CachedString(sb.text, at, cache) else Written(at, ScalarBytes(sb), cache);
      Diffed(r.off, true, r.out, over[aoff := r.off], r.cache)
  }

  /** A value of another type is copied as a whole. */
  function Replace(aoff: int, tb: Tree, at: int, embed: bool, over: map<int, int>, cache: Cache): Diffed {
    var r := Copy(tb, at, embed, cache);
    Diffed(r.off, true, r.out, if r.off >= 0 then over[aoff := r.off] else over, r.cache)
  }

  // ---- Objects ----

  /** An object under comparison: the old object's names with the offsets of its
      names and values, both lists of values, and how the new ones are stored. */
  datatype Fields = Fields(names: seq<Bytes>, noffs: seq<int>, voffs: seq<int>, tas: seq<Tree>,
                           bnames: seq<Bytes>, tbs: seq<Tree>, sbs: seq<Stored>)
  {
    ghost predicate Valid() {
      && |names| == |noffs| == |voffs| == |tas| && |bnames| == |tbs| && Docs(sbs) == tbs
      && Proper(Obj(names, tas)) && Proper(Obj(bnames, tbs))
    }
  }

  function FieldsOf(n: Node, ta: Tree, tb: Tree, sb: Stored): Fields
    requires Doc(sb) == tb && n.NObj? && ta.Obj? && tb.Obj?
  {
    Fields(n.names, n.noffs, n.voffs, ta.vals, tb.names, tb.vals, sb.vals)
  }

  /** The comparison so far: the changed names, the bytes, the overrides, the cache. */
  datatype Progress = Progress(changes: map<Bytes, Slot>, out: Bytes, over: map<int, int>, cache: Cache)

  /** The first `n` names of the old object, compared with the new object. */
  ghost function CompareUpto(a: Bytes, f: Fields, n: nat, at: int, over: map<int, int>, cache: Cache): Progress
    requires f.Valid() && n <= |f.names| && DenotesAll(Snapshot(a), f.voffs, f.tas)
    decreases f.tas, n
  {
    if n == 0 then Progress(map[], [], over, cache)
    else
      var p := CompareUpto(a, f, n - 1, at, over, cache);
      var j := IndexOf(f.bnames, f.names[n - 1]);
      if j < 0 then RemoveName(f, n - 1, p)
      else
        KeepName(f, n - 1, p, Diff(a, f.voffs[n - 1], f.tas[n - 1], f.tbs[j], f.sbs[j], true, at + |p.out|, p.over, p.cache))
  }

  /** Name `i` is gone from the new object. */
  function RemoveName(f: Fields, i: nat, p: Progress): Progress
    requires i < |f.names| == |f.noffs|
  {
    p.(changes := p.changes[f.names[i] := Slot(f.noffs[i], REMOVED)])
  }

  /** Name `i` is kept. A value that reports a change goes into the object patch,
      and the override of its own place is dropped again. */
  function KeepName(f: Fields, i: nat, p: Progress, d: Diffed): Progress
    requires i < |f.names| == |f.noffs| == |f.voffs|
  {
    if d.changed then
      Progress(p.changes[f.names[i] := Slot(f.noffs[i], d.off)], p.out + d.out, d.over - {f.voffs[i]}, d.cache)
    else Progress(p.changes, p.out + d.out, d.over, d.cache)
  }

  /** Then the first `n` names of the new object: those the old one lacks are added. */
  function AddUpto(f: Fields, n: nat, at: int, p: Progress): Progress
    requires |f.bnames| == |f.tbs| && n <= |f.bnames|
  {
    if n == 0 then p else AddName(f, n - 1, at, AddUpto(f, n - 1, at, p))
  }

  function AddName(f: Fields, i: nat, at: int, q: Progress): (r: Progress)
    requires i < |f.bnames| == |f.tbs|
    ensures r.over == q.over && q.out <= r.out
  {
    if f.bnames[i] in f.names then q
    else
      var s := CachedString(f.bnames[i], at + |q.out|, q.cache);
      var r := Copy(f.tbs[i], at + |q.out| + |s.out|, true, s.cache);
      Progress(q.changes[f.bnames[i] := Slot(s.off + 1, r.off)], q.out + s.out + r.out, q.over, r.cache)
  }

  ghost function ChangeNames(changes: map<Bytes, Slot>, names: seq<Bytes>): (r: seq<int>)
    requires forall n | n in names :: n in changes
    ensures |r| == |names|
  {
    seq(|names|, i requires 0 <= i < |names| => changes[names[i]].name)
  }

  ghost function ChangeValues(changes: map<Bytes, Slot>, names: seq<Bytes>): (r: seq<int>)
    requires forall n | n in names :: n in changes
    ensures |r| == |names|
  {
    seq(|names|, i requires 0 <= i < |names| => changes[names[i]].value)
  }

  /** An object patch over the object at `aoff`. */
  ghost function PatchBytes(aoff: int, len: nat, changes: map<Bytes, Slot>): Bytes {
    var names := Sorted(changes.Keys);
    [T_OBJECT_PATCH] + Be32(aoff) + PutVarint(len) + PutVarint(|changes|)
    + Words(ChangeNames(changes, names)) + Words(ChangeValues(changes, names))
  }

  ghost function DiffObject(a: Bytes, aoff: int, f: Fields, at: int, over: map<int, int>, cache: Cache): Diffed
    requires f.Valid() && DenotesAll(Snapshot(a), f.voffs, f.tas)
    decreases f.tas, |f.names| + 1
  {
    var p := AddUpto(f, |f.bnames|, at, CompareUpto(a, f, |f.names|, at, over, cache));
    if p.changes == map[] then Diffed(0, false, p.out, p.over, p.cache)
    else
      Diffed(at + |p.out|, false, p.out + PatchBytes(aoff, |f.bnames|, p.changes),
             p.over[aoff := at + |p.out|], p.cache)
  }

  /** diffImpl: the comparison of what stands at `aoff` with the document `tb`, stored as
      `sb`. Types of objects only matter within arrays. */
  ghost function Diff(a: Bytes, aoff: int, ta: Tree, tb: Tree, sb: Stored, embed: bool, at: int,
                      over: map<int, int>, cache: Cache): Diffed
    requires Doc(sb) == tb && Proper(ta) && Proper(tb) && Denotes(Snapshot(a), aoff, ta)
    decreases ta
  {
    KidsDenoted(Snapshot(a), aoff, ta);
    var node := NodeAt(Snapshot(a), aoff).value;
    if Kind(ta) != Kind(tb) then Replace(aoff, tb, at, embed, over, cache)
    else if ta.Leaf? then DiffLeaf(aoff, ta.s, tb.s, at, over, cache)
    else if ta.Arr? then DiffArray(aoff, node.offs, StoredAll(Snapshot(a), node.offs, ta.elems), sb.elems, at, over, cache)
    else DiffObject(a, aoff, FieldsOf(node, ta, tb, sb), at, over, cache)
  }
}
