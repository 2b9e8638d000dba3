/** Object patches: writing one and reading it back over the old object gives the
    new object's names, each with the offset of its new value. */
module DeltaPatches {
  import opened ByteCodec
  import opened Names
  import opened Trees
  import opened Reader
  import opened StoredShapes
  import opened SnapshotFormat
  import opened DeltaValues
  import opened DeltaFormat

  lemma PatchParts(d: Bytes, at: int, all: Bytes, full: Bytes, len: Bytes, count: Bytes, w: Bytes, x: Bytes)
    requires At(d, at, all) && all == [T_OBJECT_PATCH] + full + len + count + w + x && |full| == 4
    ensures At(d, at, [T_OBJECT_PATCH]) && At(d, at + 1, full) && At(d, at + 5, len)
    ensures At(d, at + 5 + |len|, count) && At(d, at + 5 + |len| + |count|, w)
    ensures At(d, at + 5 + |len| + |count| + |w|, x)
  {
    hide At;
    AtParts(d, at, all, [T_OBJECT_PATCH] + full + len, count, w, x);
    AtSplit(d, at, [T_OBJECT_PATCH] + full, len);
    AtSplit(d, at, [T_OBJECT_PATCH], full);
  }

  lemma PatchReadBack(d: Bytes, at: int, aoff: int, len: nat, names: seq<Bytes>, noffs: seq<int>, voffs: seq<int>,
                      w: Bytes, x: Bytes)
    requires 0 <= aoff < TWO_31 && len < TWO_31 && |names| == |noffs| == |voffs| < TWO_31
    requires AllInt32(noffs) && AllInt32(voffs) && w == Words(noffs) && x == Words(voffs)
    requires At(d, at, [T_OBJECT_PATCH] + Be32(aoff) + PutVarint(len) + PutVarint(|names|) + w + x)
    requires NamesFrom(d, noffs) == Some(names)
    ensures 0 <= at < |d| && d[at] == T_OBJECT_PATCH
    ensures PatchAt(d, at) == Some(Patch(aoff, len, names, noffs, voffs))
  {
    var full, l, count := Be32(aoff), PutVarint(len), PutVarint(|names|);
    PatchParts(d, at, [T_OBJECT_PATCH] + full + l + count + w + x, full, l, count, w, x);
    assert d[at] == [T_OBJECT_PATCH][0];
    hide At, Words, Be32, PutVarint, NamesFrom, VarintAt, WordsAt, U32;
    Be32ReadBack(d, at + 1, aoff);
    VarintReadBack(d, at + 5, len);
    VarintReadBack(d, at + 5 + |l|, |names|);
    WordsReadBack(d, at + 5 + |l| + |count|, noffs);
    WordsReadBack(d, at + 5 + |l| + |count| + |w|, voffs);
    WordsFit(d, at + 5 + |l| + |count| + |w|, x);
  }

  lemma WordsFit(d: Bytes, off: int, x: Bytes)
    requires At(d, off, x)
    ensures 0 <= off && off + |x| <= |d|
  {
  }

  /** The tables of a patch, read as a map again. */
  lemma ChangesReadBack(changes: map<Bytes, Slot>)
    ensures var names := Sorted(changes.Keys);
            && |names| == |changes|
            && SlotMap(names, ChangeNames(changes, names), ChangeValues(changes, names)) == changes
  {
    SortedCount(changes.Keys);
    assert |changes.Keys| == |changes|;
  }

  // ---- What the changes must say of each name ----

  /** Name `i` of the old object: removed, changed to the new value, or standing for
      the new value where it always stood. */
  ghost predicate FieldOK(changes: map<Bytes, Slot>, f: Fields, i: int, v: View)
    requires f.Valid() && 0 <= i < |f.names|
  {
    var name, j := f.names[i], IndexOf(f.bnames, f.names[i]);
    if j < 0 then name in changes && changes[name] == Slot(f.noffs[i], REMOVED)
    else if name in changes then
      && changes[name].name == f.noffs[i] && IsInt32(changes[name].value)
      && Denotes(v, changes[name].value, f.tbs[j])
    else Denotes(v, f.voffs[i], f.tbs[j])
  }

  /** Name `j` of the new object, when the old one lacks it. */
  ghost predicate AddedOK(changes: map<Bytes, Slot>, f: Fields, j: int, v: View)
    requires f.Valid() && 0 <= j < |f.bnames|
  {
    var name := f.bnames[j];
    name !in f.names ==>
      && name in changes && IsInt32(changes[name].name) && IsInt32(changes[name].value)
      && StringAt(v.content, changes[name].name) == Some(name)
      && Denotes(v, changes[name].value, f.tbs[j])
  }

  ghost predicate ChangesOK(changes: map<Bytes, Slot>, f: Fields, v: View)
    requires f.Valid()
  {
    && (forall i | 0 <= i < |f.names| :: FieldOK(changes, f, i, v))
    && (forall j | 0 <= j < |f.bnames| :: AddedOK(changes, f, j, v))
    && (forall n | n in changes :: n in f.names || n in f.bnames)
  }

  /** No document stands at the mark for removed names. */
  lemma NotRemoved(v: View, off: int, t: Tree)
    requires Denotes(v, off, t)
    ensures off != REMOVED
  {
  }

  ghost function MergedSlots(f: Fields, changes: map<Bytes, Slot>): map<Bytes, Slot>
    requires f.Valid()
  {
    Merged(SlotMap(f.names, f.noffs, f.voffs), changes)
  }

  /** An old name survives exactly when the new object has it, and then its slot
      holds the new value. */
  lemma OldNameMerged(changes: map<Bytes, Slot>, f: Fields, i: int, v: View)
    requires f.Valid() && 0 <= i < |f.names| && FieldOK(changes, f, i, v)
    ensures var name, m := f.names[i], MergedSlots(f, changes);
            && (name in m <==> name in f.bnames)
            && (name in m ==> Denotes(v, m[name].value, f.tbs[IndexOf(f.bnames, name)]))
  {
    hide Denotes;
    var name, j := f.names[i], IndexOf(f.bnames, f.names[i]);
    IndexOfAt(f.names, i);
    if j >= 0 && name in changes {
      NotRemoved(v, changes[name].value, f.tbs[j]);
    }
  }

  lemma NewNameMerged(changes: map<Bytes, Slot>, f: Fields, j: int, v: View)
    requires f.Valid() && 0 <= j < |f.bnames| && AddedOK(changes, f, j, v) && f.bnames[j] !in f.names
    ensures var name, m := f.bnames[j], MergedSlots(f, changes);
            name in m && Denotes(v, m[name].value, f.tbs[j])
  {
    hide Denotes;
    NotRemoved(v, changes[f.bnames[j]].value, f.tbs[j]);
  }

  /** The merged object has exactly the names of the new object, with its values. */
  lemma MergedIsNew(changes: map<Bytes, Slot>, f: Fields, v: View)
    requires f.Valid() && ChangesOK(changes, f, v)
    ensures forall n :: n in MergedSlots(f, changes) <==> n in f.bnames
    ensures forall j | 0 <= j < |f.bnames| :: Denotes(v, MergedSlots(f, changes)[f.bnames[j]].value, f.tbs[j])
  {
    var m := MergedSlots(f, changes);
    hide Denotes, FieldOK, AddedOK;
    forall n ensures n in m <==> n in f.bnames {
      if n in f.names {
        OldNameMerged(changes, f, IndexOf(f.names, n), v);
      } else if n in f.bnames {
        NewNameMerged(changes, f, IndexOf(f.bnames, n), v);
      }
    }
    forall j | 0 <= j < |f.bnames| ensures Denotes(v, m[f.bnames[j]].value, f.tbs[j]) {
      var n := f.bnames[j];
      IndexOfAt(f.bnames, j);
      if n in f.names {
        OldNameMerged(changes, f, IndexOf(f.names, n), v);
      } else {
        NewNameMerged(changes, f, j, v);
      }
    }
  }

  /** A view that overrides the old object with this patch reads the new object. */
  lemma PatchedObjectDenotes(f: Fields, changes: map<Bytes, Slot>, aoff: int, at: int, v: View)
    requires f.Valid() && ChangesOK(changes, f, v)
    requires v.Delta? && 0 <= aoff <= v.slen && aoff in v.over && v.over[aoff] == at
    requires 0 <= at < |v.content| && v.content[at] == T_OBJECT_PATCH
    requires RawObject(v.content, aoff) == Some(NObj(|f.names|, f.names, f.noffs, f.voffs))
    requires var names := Sorted(changes.Keys);
             PatchAt(v.content, at) == Some(Patch(aoff, |f.bnames|, names, ChangeNames(changes, names), ChangeValues(changes, names)))
    ensures Denotes(v, aoff, Obj(f.bnames, f.tbs))
  {
    hide *;
    OverlayNode(f, changes, aoff, at, v);
    MergedIsNew(changes, f, v);
    ListedNames(f, MergedSlots(f, changes));
    TablesSorted(f, changes, aoff, at, v);
    ListedDenoted(f, MergedSlots(f, changes), aoff, v);
  }

  lemma OverlayNode(f: Fields, changes: map<Bytes, Slot>, aoff: int, at: int, v: View)
    requires f.Valid()
    requires v.Delta? && 0 <= aoff <= v.slen && aoff in v.over && v.over[aoff] == at
    requires 0 <= at < |v.content| && v.content[at] == T_OBJECT_PATCH
    requires RawObject(v.content, aoff) == Some(NObj(|f.names|, f.names, f.noffs, f.voffs))
    requires var names := Sorted(changes.Keys);
             PatchAt(v.content, at) == Some(Patch(aoff, |f.bnames|, names, ChangeNames(changes, names), ChangeValues(changes, names)))
    ensures NodeAt(v, aoff) == Some(ListedObject(|f.bnames|, MergedSlots(f, changes)))
  {
    ChangesReadBack(changes);
    hide PatchAt, RawObject, Merged, SlotMap, ChangeNames, ChangeValues, ListedObject;
  }

  /** The names of the changes have been sorted, those underneath were sorted before. */
  lemma TablesSorted(f: Fields, changes: map<Bytes, Slot>, aoff: int, at: int, v: View)
    requires f.Valid() && v.Delta? && 0 <= aoff <= v.slen && aoff in v.over && v.over[aoff] == at
    requires RawObject(v.content, aoff) == Some(NObj(|f.names|, f.names, f.noffs, f.voffs))
    requires var names := Sorted(changes.Keys);
             PatchAt(v.content, at) == Some(Patch(aoff, |f.bnames|, names, ChangeNames(changes, names), ChangeValues(changes, names)))
    ensures Searchable(v, aoff)
  {
    hide PatchAt, RawObject, ChangeNames, ChangeValues, Ascending, Sorted;
  }

  lemma ListedNames(f: Fields, m: map<Bytes, Slot>)
    requires f.Valid() && forall n :: n in m <==> n in f.bnames
    ensures ListedObject(|f.bnames|, m).names == f.bnames
  {
    AscendingIsUnique(Sorted(m.Keys), f.bnames);
  }

  lemma ListedDenoted(f: Fields, m: map<Bytes, Slot>, aoff: int, v: View)
    requires f.Valid() && forall n :: n in m <==> n in f.bnames
    requires forall j | 0 <= j < |f.bnames| :: Denotes(v, m[f.bnames[j]].value, f.tbs[j])
    requires NodeAt(v, aoff) == Some(ListedObject(|f.bnames|, m)) && ListedObject(|f.bnames|, m).names == f.bnames
    requires Searchable(v, aoff)
    ensures Denotes(v, aoff, Obj(f.bnames, f.tbs))
  {
    hide Denotes, NodeAt, Ascending, Searchable;
    var n := ListedObject(|f.bnames|, m);
    forall j | 0 <= j < |f.bnames| ensures Denotes(v, n.Slots()[j], f.tbs[j]) {
      assert n.voffs[j] == m[f.bnames[j]].value;
    }
    ObjectDenoted(v, aoff, n, f.bnames, f.tbs);
  }

  lemma ObjectDenoted(v: View, off: int, n: Node, names: seq<Bytes>, vals: seq<Tree>)
    requires NodeAt(v, off) == Some(n) && n.NObj? && n.names == names && n.len == |names| == |n.noffs| && |n.voffs| == |vals|
    requires forall j | 0 <= j < |vals| :: Denotes(v, n.Slots()[j], vals[j])
    requires Searchable(v, off)
    ensures Denotes(v, off, Obj(names, vals))
  {
    hide NodeAt, Searchable;
  }
}
