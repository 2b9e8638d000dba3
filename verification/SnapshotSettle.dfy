/** Which documents give an empty delta against themselves, once they have been written:
    equal scalars are interned and share an offset, equal containers never do, and a full
    object is not taken for a thin one. */
module SettledSnapshots {
  import opened ByteCodec
  import opened Names
  import opened Trees
  import opened Reader
  import opened StoredShapes
  import opened Containers
  import opened SnapshotFormat
  import opened WrittenShapes
  import opened DeltaFormat
  import opened DeltaFiles
  import opened DeltaEmpty

  /** No array that is a field, at any depth, holds two equal arrays or objects, unless the
      first of them has an object that is the first with its names in the document. */
  ghost predicate NoTwins(t: Tree, known: set<seq<Bytes>>)
    decreases t
  {
    match t
    case Leaf(_) => true
    case Arr(elems) =>
      forall i, j | 0 <= i < j < |elems| && elems[i] == elems[j] && !elems[i].Leaf? ::
        !Known(elems[i], AfterUpto(elems, i, known))
    case Obj(names, vals) => forall i | 0 <= i < |vals| :: NoTwins(vals[i], AfterUpto(vals, i, known + {names}))
  }

  /** No array that is a field holds binary data. */
  ghost predicate BlobFree(t: Tree) {
    match t
    case Leaf(_) => true
    case Arr(elems) => forall i | 0 <= i < |elems| && elems[i].Leaf? :: !elems[i].s.Blob?
    case Obj(_, vals) => forall i | 0 <= i < |vals| :: BlobFree(vals[i])
  }

  // ---- Interned scalars keep their place ----

  ghost predicate Grows(c: Cache, d: Cache) {
    && (forall s | s in c.strs :: s in d.strs && d.strs[s] == c.strs[s])
    && (forall s | s in c.nums :: s in d.nums && d.nums[s] == c.nums[s])
  }

  lemma {:induction false} WriteGrows(t: Tree, base: int, len: nat, cache: Cache)
    ensures Grows(cache, Write(t, base, len, cache).cache)
    decreases t, 0, 0
  {
    hide WriteUpto, PutVarint, Words, Be32, NameBytes, NameOffsets, ScalarBytes, Itoa;
    match t
    case Leaf(_) =>
    case Arr(elems) =>
      UptoGrows(elems, |elems|, base, len + 1 + |PutVarint(|elems|)| + 4 * |elems|, cache);
    case Obj(names, vals) =>
      if names in cache.types && cache.types[names] != base + len {
        UptoGrows(vals, |vals|, base, len + 5 + 4 * |vals|, cache);
      } else {
        var start := 1 + |PutVarint(|names|)| + 4 * |names| + 4 * |vals|;
        UptoGrows(vals, |vals|, base, len + start + |NameBytes(names, |names|)|, cache.(types := cache.types[names := base + len]));
      }
  }

  lemma {:induction false} UptoGrows(ts: seq<Tree>, n: nat, base: int, len: nat, cache: Cache)
    requires n <= |ts|
    ensures Grows(cache, WriteUpto(ts, n, base, len, cache).cache)
    decreases ts, 1, n
  {
    hide Write, WriteUpto;
    if n == 0 {
      UptoNone(ts, base, len, cache);
    } else {
      UptoGrows(ts, n - 1, base, len, cache);
      var before := WriteUpto(ts, n - 1, base, len, cache);
      WriteUptoStep(ts, n, base, len, cache);
      WriteGrows(ts[n - 1], base, len + |before.out|, before.cache);
    }
  }

  /** Where an interned scalar stands. */
  ghost predicate Placed(cache: Cache, s: Scalar, off: int) {
    match s
    case Str(text) => text in cache.strs && cache.strs[text] == off
    case Int(i) => Itoa(i) in cache.strs && cache.strs[Itoa(i)] == off
    case Num(digits) => digits in cache.nums && cache.nums[digits] == off
    case Blob(_) => true
    case _ => off == -(Tag(s) as int)
  }

  lemma LeafPlaced(s: Scalar, base: int, len: nat, cache: Cache)
    requires len > 0
    ensures var r := Write(Leaf(s), base, len, cache); Placed(r.cache, s, r.off)
  {
    hide ScalarBytes, Itoa;
  }

  lemma OnePlace(cache: Cache, s: Scalar, off: int, s': Scalar, off': int)
    requires Placed(cache, s, off) && Placed(cache, s', off') && Proper(Leaf(s)) && Proper(Leaf(s'))
    requires ScalarRepr(s) == ScalarRepr(s') && !s.Blob?
    ensures off == off'
  {
    hide Itoa, Atoi;
    if s.Int? { ItoaRoundTrip(s.i); }
    if s'.Int? { ItoaRoundTrip(s'.i); }
  }

  lemma {:induction false} LeavesPlaced(ts: seq<Tree>, n: nat, base: int, len: nat, cache: Cache)
    requires n <= |ts| && len > 0
    ensures var r := WriteUpto(ts, n, base, len, cache);
            forall i | 0 <= i < n && ts[i].Leaf? :: Placed(r.cache, ts[i].s, r.offs[i])
    decreases n
  {
    hide Write, WriteUpto, Placed;
    if n > 0 {
      LeavesPlaced(ts, n - 1, base, len, cache);
      var before := WriteUpto(ts, n - 1, base, len, cache);
      WriteUptoStep(ts, n, base, len, cache);
      WriteGrows(ts[n - 1], base, len + |before.out|, before.cache);
      var last := Write(ts[n - 1], base, len + |before.out|, before.cache);
      if ts[n - 1].Leaf? {
        LeafPlaced(ts[n - 1].s, base, len + |before.out|, before.cache);
      }
      forall i | 0 <= i < n - 1 && ts[i].Leaf? ensures Placed(last.cache, ts[i].s, before.offs[i]) {
        StaysPlaced(before.cache, last.cache, ts[i].s, before.offs[i]);
      }
    }
  }

  lemma StaysPlaced(c: Cache, d: Cache, s: Scalar, off: int)
    requires Grows(c, d) && Placed(c, s, off)
    ensures Placed(d, s, off)
  {
  }

  // ---- Arrays ----

  /** In a written array, equal scalars share their offset and equal containers do not. */
  lemma ArraySettles(elems: seq<Tree>, offs: seq<int>, reprs: seq<Tree>, cache: Cache, d: Bytes, known: set<seq<Bytes>>)
    requires |offs| == |elems| && reprs == Reprs(elems, |elems|) && Disjoint(d, offs, reprs)
    requires forall i | 0 <= i < |elems| && elems[i].Leaf? :: Placed(cache, elems[i].s, offs[i]) && !elems[i].s.Blob?
    requires forall i | 0 <= i < |elems| :: Proper(elems[i])
    ensures NoRepeats(offs, Shapes(reprs, |reprs|, known)) <==> NoTwins(Arr(reprs), known)
  {
    hide Placed, Proper, Repr, Shapes, AfterUpto, Known;
    var ss := Shapes(reprs, |reprs|, known);
    forall i | 0 <= i < |elems| ensures reprs[i].Leaf? <==> elems[i].Leaf? {
      LeafRepr(elems[i]);
    }
    forall i, j | 0 <= i < j < |elems| && reprs[i] == reprs[j]
      ensures offs[i] == offs[j] <==> reprs[i].Leaf?
      ensures ss[i] == ss[j] <==> Known(reprs[i], AfterUpto(reprs, i, known))
      ensures reprs[i].Leaf? ==> ss[i] == ss[j]
    {
      StoredAlike(reprs, known, i, j);
      if reprs[i].Leaf? {
        LeafRepr(elems[i]);
        LeafRepr(elems[j]);
        OnePlace(cache, elems[i].s, offs[i], elems[j].s, offs[j]);
        LeafKnown(reprs[i], AfterUpto(reprs, i, known));
      } else {
        assert Inside(d, offs[i], reprs[i], offs[i]) && Inside(d, offs[j], reprs[j], offs[j]);
      }
    }
    forall i, j | 0 <= i < j < |elems| && ss[i] == ss[j] ensures reprs[i] == reprs[j] {
      StoredAlike(reprs, known, i, j);
    }
  }

  lemma LeafKnown(t: Tree, known: set<seq<Bytes>>)
    requires t.Leaf?
    ensures Known(t, known)
  {
  }

  lemma LeafRepr(t: Tree)
    ensures Repr(t).Leaf? <==> t.Leaf?
    ensures t.Leaf? ==> Repr(t) == Leaf(ScalarRepr(t.s))
  {
  }

  // ---- Written documents ----

  /** A written document settles exactly when none of its fields' arrays has twins. */
  ghost predicate SettlesExactly(d: Bytes, off: int, t: Tree, known: set<seq<Bytes>>) {
    && Denotes(Snapshot(d), off, t) && Doc(Shape(t, known)) == t
    && (Settles(d, off, t, Shape(t, known)) <==> NoTwins(t, known))
  }

  ghost predicate SettleAll(d: Bytes, offs: seq<int>, ts: seq<Tree>, n: nat, known: set<seq<Bytes>>)
    requires n <= |ts| && n <= |offs|
  {
    forall i | 0 <= i < n :: SettlesExactly(d, offs[i], ts[i], AfterUpto(ts, i, known))
  }

  lemma {:induction false} WrittenSettles(t: Tree, base: int, len: nat, cache: Cache, c: Bytes, d: Bytes)
    requires Proper(t) && BlobFree(t) && 0 <= base && |c| == base + len && CacheOK(cache, c) && TypesBelow(cache, |c|)
    requires c + Write(t, base, len, cache).out <= d && |d| < TWO_31
    ensures SettlesExactly(d, Write(t, base, len, cache).off, Repr(t), cache.types.Keys)
    decreases t, 0, 0
  {
    hide *;
    var off, known := Write(t, base, len, cache).off, cache.types.Keys;
    WrittenShaped(t, base, len, cache, c, d);
    ShapedFacts(d, off, Repr(t), known);
    ProperParts(t);
    BlobFreeParts(t);
    ReprParts(t);
    if t.Leaf? {
      LeafSettles(d, off, Repr(t), known);
    } else if t.Arr? {
      var kids, whole, c' := ArrayHead(t.elems, base, len, cache, c, d);
      LeavesPlaced(t.elems, |t.elems|, base, len + |whole|, cache);
      ArraySettles(t.elems, kids.offs, Repr(t).elems, kids.cache, d, known);
      ArraySettlesAt(d, off, Repr(t).elems, kids.offs, known);
    } else {
      var kids, whole, c', cache' := ObjectHead(t, base, len, cache, c, d);
      TypesRemembered(t, cache, cache', |c|, |c'|);
      KidsSettle(t.vals, |t.vals|, base, len + |whole|, cache', c', d);
      ObjectSettlesAt(d, off, t.names, Repr(t).vals, kids.offs, known);
    }
  }

  lemma ShapedFacts(d: Bytes, off: int, t: Tree, known: set<seq<Bytes>>)
    requires Shaped(d, off, t, known)
    ensures Denotes(Snapshot(d), off, t) && StoredOf(Snapshot(d), off, t) == Shape(t, known) && Doc(Shape(t, known)) == t
  {
    hide Denotes, StoredOf, Shape, Doc;
    ShapeDoc(t, known);
  }

  lemma BlobFreeParts(t: Tree)
    requires BlobFree(t)
    ensures t.Arr? ==> forall i | 0 <= i < |t.elems| && t.elems[i].Leaf? :: !t.elems[i].s.Blob?
    ensures t.Obj? ==> forall i | 0 <= i < |t.vals| :: BlobFree(t.vals[i])
  {
  }

  lemma LeafSettles(d: Bytes, off: int, t: Tree, known: set<seq<Bytes>>)
    requires t.Leaf? && Denotes(Snapshot(d), off, t)
    ensures SettlesExactly(d, off, t, known)
  {
  }

  lemma ArraySettlesAt(d: Bytes, off: int, elems: seq<Tree>, offs: seq<int>, known: set<seq<Bytes>>)
    requires off >= 0 && Denotes(Snapshot(d), off, Arr(elems)) && RawNode(d, off) == Some(NArr(offs)) && |offs| == |elems|
    requires StoredOf(Snapshot(d), off, Arr(elems)) == Shape(Arr(elems), known) && Doc(Shape(Arr(elems), known)) == Arr(elems)
    requires NoRepeats(offs, Shapes(elems, |elems|, known)) <==> NoTwins(Arr(elems), known)
    ensures SettlesExactly(d, off, Arr(elems), known)
  {
    hide Denotes, RawNode, StoredAll, StoredOf, Shapes, Docs, NoRepeats, NoTwins;
    StoredParts(Snapshot(d), off, Arr(elems));
  }

  lemma ObjectSettlesAt(d: Bytes, off: int, names: seq<Bytes>, vals: seq<Tree>, offs: seq<int>, known: set<seq<Bytes>>)
    requires off >= 0 && Denotes(Snapshot(d), off, Obj(names, vals)) && |offs| == |vals|
    requires RawNode(d, off).Some? && RawNode(d, off).value.Slots() == offs
    requires Doc(Shape(Obj(names, vals), known)) == Obj(names, vals)
    requires SettleAll(d, offs, vals, |vals|, known + {names})
    ensures SettlesExactly(d, off, Obj(names, vals), known)
  {
    hide Denotes, RawNode, StoredAll, StoredOf, Shape, Shapes, Docs, SettleAll, AfterUpto;
    var t, s, inner := Obj(names, vals), Shape(Obj(names, vals), known), known + {names};
    ObjectShape(names, vals, known);
    KidsDenoted(Snapshot(d), off, t);
    FieldDocs(s);
    forall i | 0 <= i < |vals|
      ensures Doc(s.vals[i]) == vals[i] && Denotes(Snapshot(d), offs[i], vals[i])
      ensures Settles(d, offs[i], vals[i], s.vals[i]) <==> NoTwins(vals[i], AfterUpto(vals, i, inner))
    {
      ShapesAt(vals, |vals|, inner, i);
      SettleAt(d, offs, vals, i, inner);
    }
  }

  lemma SettleAt(d: Bytes, offs: seq<int>, ts: seq<Tree>, i: nat, known: set<seq<Bytes>>)
    requires i < |ts| == |offs| && SettleAll(d, offs, ts, |ts|, known)
    ensures SettlesExactly(d, offs[i], ts[i], AfterUpto(ts, i, known))
  {
    hide SettlesExactly, AfterUpto;
  }

  lemma ObjectShape(names: seq<Bytes>, vals: seq<Tree>, known: set<seq<Bytes>>)
    ensures var s := Shape(Obj(names, vals), known);
            s.SObj? && s.vals == Shapes(vals, |vals|, known + {names}) && |s.vals| == |vals|
  {
    hide Shapes;
  }

  lemma {:induction false} KidsSettle(ts: seq<Tree>, n: nat, base: int, len: nat, cache: Cache, c: Bytes, d: Bytes)
    requires n <= |ts| && 0 <= base && |c| == base + len && CacheOK(cache, c) && TypesBelow(cache, |c|)
    requires forall i | 0 <= i < |ts| :: Proper(ts[i]) && BlobFree(ts[i])
    requires c + WriteUpto(ts, n, base, len, cache).out <= d && |d| < TWO_31
    ensures var r := WriteUpto(ts, n, base, len, cache);
            CacheOK(r.cache, c + r.out) && |r.offs| == n && SettleAll(d, r.offs, Reprs(ts, |ts|), n, cache.types.Keys)
    decreases ts, 1, n
  {
    hide Write, WriteUpto, CacheOK, TypesBelow, SettlesExactly, Proper, BlobFree, Laid, Repr, After, AfterUpto;
    WriteUptoCorrect(ts, n, base, len, cache, c, d);
    if n > 0 {
      var before := WriteUpto(ts, n - 1, base, len, cache);
      var last := Write(ts[n - 1], base, len + |before.out|, before.cache);
      WriteUptoStep(ts, n, base, len, cache);
      assert c + (before.out + last.out) == c + before.out + last.out;
      KidsSettle(ts, n - 1, base, len, cache, c, d);
      UptoTypes(ts, n - 1, base, len, cache);
      WrittenSettles(ts[n - 1], base, len + |before.out|, before.cache, c + before.out, d);
      assert Reprs(ts, |ts|)[n - 1] == Repr(ts[n - 1]);
    }
  }

  // ---- Snapshots ----

  /** A written document can be compared, and is stored in its shape. */
  lemma SnapReady(t: Tree)
    requires t.Obj? && Proper(t) && |Snap(t)| < TWO_31
    ensures Denotes(Snapshot(Snap(t)), 0, Repr(t)) && Comparable(Snap(t), Repr(t), Repr(t)) && Proper(Repr(t))
    ensures StoredOf(Snapshot(Snap(t)), 0, Repr(t)) == Shape(Repr(t), {}) && Doc(Shape(Repr(t), {})) == Repr(t)
  {
    hide Write, Denotes, Proper, Apart, Repr, StoredOf, Shape, Doc, Snap;
    SnapshotRoundTrip(t);
    ReprIsProper(t);
    SnapShape(t);
    ObjRepr(t);
  }

  lemma SnapSettles(t: Tree)
    requires t.Obj? && Proper(t) && BlobFree(t) && |Snap(t)| < TWO_31
    ensures SettlesExactly(Snap(t), 0, Repr(t), {})
  {
    hide Write, SettlesExactly, BlobFree, Proper, Repr;
    FirstOffset(t);
    NothingCached();
    var r := Write(t, 0, 0, EMPTY);
    assert [] + r.out == r.out && EMPTY.types.Keys == {};
    WrittenSettles(t, 0, 0, EMPTY, [], Snap(t));
  }

  lemma ObjRepr(t: Tree)
    requires t.Obj?
    ensures Repr(t).Obj?
  {
  }

  /** The delta of a written document to itself is empty exactly when no array among its
      fields has twins. */
  lemma SelfDeltaEmpty(t: Tree)
    requires t.Obj? && Proper(t) && BlobFree(t) && |Snap(t)| < TWO_31
    ensures Comparable(Snap(t), Repr(t), Repr(t)) && Denotes(Snapshot(Snap(t)), 0, Repr(t)) && Proper(Repr(t))
    ensures var sb := StoredOf(Snapshot(Snap(t)), 0, Repr(t));
            Doc(sb) == Repr(t) && (RootDiff(Snap(t), Repr(t), Repr(t), sb).over == map[] <==> NoTwins(Repr(t), {}))
  {
    hide Denotes, Settles, NoTwins, BlobFree, Proper, Apart, Repr, Snap, RootDiff, StoredOf, Shape, Doc;
    SnapReady(t);
    SnapSettles(t);
    SelfDelta(Snap(t), Repr(t), Shape(Repr(t), {}));
  }

  /** For two written documents: the delta is empty exactly when they are equal and have no
      such array. */
  lemma WrittenDeltaEmpty(t: Tree, u: Tree)
    requires t.Obj? && u.Obj? && Proper(t) && Proper(u) && BlobFree(t) && |Snap(t)| < TWO_31 && |Snap(u)| < TWO_31
    ensures Comparable(Snap(t), Repr(t), Repr(u)) && Denotes(Snapshot(Snap(u)), 0, Repr(u))
    ensures Proper(Repr(t)) && Proper(Repr(u)) && Denotes(Snapshot(Snap(t)), 0, Repr(t))
    ensures var sb := StoredOf(Snapshot(Snap(u)), 0, Repr(u));
            && Doc(sb) == Repr(u)
            && (|Snap(t) + DeltaFile(Snap(t), Repr(t), Repr(u), sb)| < TWO_31 ==>
                  (RootDiff(Snap(t), Repr(t), Repr(u), sb).over == map[] <==> Repr(t) == Repr(u) && NoTwins(Repr(t), {})))
  {
    hide *;
    SnapReady(t);
    SnapReady(u);
    ComparableMix(t, u);
    SnapSettles(t);
    var sb := StoredOf(Snapshot(Snap(u)), 0, Repr(u));
    if |Snap(t) + DeltaFile(Snap(t), Repr(t), Repr(u), sb)| < TWO_31 {
      EmptyExactly(Snap(t), Repr(t), Repr(u), sb);
      SettlesMeans(Snap(t), 0, Repr(t), {});
    }
  }

  lemma SettlesMeans(d: Bytes, off: int, t: Tree, known: set<seq<Bytes>>)
    requires SettlesExactly(d, off, t, known)
    ensures Denotes(Snapshot(d), off, t) && Doc(Shape(t, known)) == t
    ensures Settles(d, off, t, Shape(t, known)) <==> NoTwins(t, known)
  {
  }

  lemma ComparableMix(t: Tree, u: Tree)
    requires Comparable(Snap(t), Repr(t), Repr(t)) && Comparable(Snap(u), Repr(u), Repr(u))
    ensures Comparable(Snap(t), Repr(t), Repr(u))
  {
    hide Denotes, Apart, Proper, Repr, Snap;
  }
}
