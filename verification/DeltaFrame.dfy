/** Override isolation: a comparison only overrides containers below the place it
    compares, so it never changes what any other path reads. */
module DeltaFrame {
  import opened ByteCodec
  import opened Names
  import opened Trees
  import opened Reader
  import opened StoredShapes
  import opened Containers
  import opened SnapshotFormat
  import opened DeltaValues
  import opened DeltaFormat

  ghost predicate IsContainer(a: Bytes, k: int) {
    k >= 0 && RawNode(a, k).Some? && !RawNode(a, k).value.NLeaf?
  }

  /** Every override replaces an array or an object of the snapshot. */
  ghost predicate OnlyContainers(over: map<int, int>, a: Bytes) {
    forall k | k in over :: IsContainer(a, k)
  }

  ghost predicate SameAt(m: map<int, int>, m': map<int, int>, k: int) {
    (k in m <==> k in m') && (k in m ==> m[k] == m'[k])
  }

  /** Nothing below this place has been overridden. */
  ghost predicate Fresh(over: map<int, int>, a: Bytes, off: int, t: Tree) {
    forall k | k in over :: !Inside(a, off, t, k)
  }

  ghost predicate FreshAll(over: map<int, int>, a: Bytes, offs: seq<int>, ts: seq<Tree>)
    requires |offs| == |ts|
  {
    forall i | 0 <= i < |ts| :: Fresh(over, a, offs[i], ts[i])
  }

  /** `k` lies below one of the first `n` elements. */
  ghost predicate InsideAny(a: Bytes, offs: seq<int>, ts: seq<Tree>, n: nat, k: int)
    requires n <= |offs| == |ts|
  {
    exists i | 0 <= i < n :: Inside(a, offs[i], ts[i], k)
  }

  // ---- Facts about Inside ----

  lemma InsideKid(a: Bytes, off: int, t: Tree, i: int, k: int)
    requires 0 <= i < |t.Kids()| && i < |SlotsAt(a, off)| && Inside(a, SlotsAt(a, off)[i], t.Kids()[i], k)
    ensures Inside(a, off, t, k)
  {
  }

  lemma InsideSelf(a: Bytes, off: int, t: Tree)
    requires !t.Leaf?
    ensures Inside(a, off, t, off)
  {
  }

  lemma DenotedContainer(a: Bytes, off: int, t: Tree)
    requires Denotes(Snapshot(a), off, t)
    ensures IsContainer(a, off) <==> !t.Leaf?
  {
  }

  /** What an object's comparison needs to know of the object's place. */
  lemma ObjectPlace(a: Bytes, aoff: int, ta: Tree)
    requires Denotes(Snapshot(a), aoff, ta) && Apart(a, aoff, ta)
    ensures var slots := NodeAt(Snapshot(a), aoff).value.Slots();
            && |slots| == |ta.Kids()| && Disjoint(a, slots, ta.Kids())
            && (forall i | 0 <= i < |ta.Kids()| :: Apart(a, slots[i], ta.Kids()[i]) && !Inside(a, slots[i], ta.Kids()[i], aoff))
            && (forall i, k | 0 <= i < |ta.Kids()| && Inside(a, slots[i], ta.Kids()[i], k) :: Inside(a, aoff, ta, k))
  {
    forall i, k | 0 <= i < |ta.Kids()| && Inside(a, SlotsAt(a, aoff)[i], ta.Kids()[i], k)
      ensures Inside(a, aoff, ta, k)
    {
      InsideKid(a, aoff, ta, i, k);
    }
  }

  lemma FreshKids(over: map<int, int>, a: Bytes, aoff: int, ta: Tree)
    requires Denotes(Snapshot(a), aoff, ta) && Apart(a, aoff, ta) && Fresh(over, a, aoff, ta)
    ensures FreshAll(over, a, NodeAt(Snapshot(a), aoff).value.Slots(), ta.Kids())
  {
    ObjectPlace(a, aoff, ta);
  }

  // ---- The overrides a comparison adds ----

  /** What a comparison may do to the overrides. A reported change leaves only the
      entry of the place itself, which its container then drops; otherwise only
      containers at or below the place are overridden. */
  ghost predicate FrameOK(r: Diffed, a: Bytes, aoff: int, ta: Tree, at: int, over: map<int, int>) {
    if r.changed then r.over - {aoff} == over
    else
      && OnlyContainers(r.over, a) && SentTo(r.over, over, at, at + |r.out|)
      && forall k | !Inside(a, aoff, ta, k) :: SameAt(r.over, over, k)
  }

  /** New overrides send their offset to what was appended between `lo` and `hi`. */
  ghost predicate SentTo(over': map<int, int>, over: map<int, int>, lo: int, hi: int) {
    forall k | k in over' :: (k in over && over[k] == over'[k]) || lo <= over'[k] < hi
  }

  lemma SentToTwice(over2: map<int, int>, over1: map<int, int>, over: map<int, int>, lo: int, mid: int, hi: int)
    requires lo <= mid <= hi && SentTo(over1, over, lo, mid) && SentTo(over2, over1, mid, hi)
    ensures SentTo(over2, over, lo, hi)
  {
  }

  lemma {:induction false} DiffFrame(a: Bytes, aoff: int, ta: Tree, tb: Tree, sb: Stored, embed: bool, at: int,
                                     over: map<int, int>, cache: Cache)
    requires Doc(sb) == tb && Proper(ta) && Proper(tb) && Denotes(Snapshot(a), aoff, ta) && Apart(a, aoff, ta)
    requires OnlyContainers(over, a) && Fresh(over, a, aoff, ta)
    ensures FrameOK(Diff(a, aoff, ta, tb, sb, embed, at, over, cache), a, aoff, ta, at, over)
    decreases ta
  {
    hide *;
    NotOverridden(a, aoff, ta, over);
    if Kind(ta) == Kind(tb) && ta.Obj? && tb.Obj? {
      ObjectFields(a, aoff, ta, tb, sb);
      ObjectPlace(a, aoff, ta);
      FreshKids(over, a, aoff, ta);
      var f := FieldsOf(NodeAt(Snapshot(a), aoff).value, ta, tb, sb);
      CompareFrame(a, f, |f.names|, at, over, cache);
      DiffObjectFrame(a, aoff, ta, tb, sb, embed, at, over, cache);
    } else {
      DiffFlatFrame(a, aoff, ta, tb, sb, embed, at, over, cache);
    }
  }

  lemma NotOverridden(a: Bytes, aoff: int, ta: Tree, over: map<int, int>)
    requires Denotes(Snapshot(a), aoff, ta) && OnlyContainers(over, a) && Fresh(over, a, aoff, ta)
    ensures aoff !in over
    ensures !ta.Leaf? ==> IsContainer(a, aoff) && Inside(a, aoff, ta, aoff)
  {
    DenotedContainer(a, aoff, ta);
    if !ta.Leaf? { InsideSelf(a, aoff, ta); }
  }

  lemma ObjectFields(a: Bytes, aoff: int, ta: Tree, tb: Tree, sb: Stored)
    requires Doc(sb) == tb && ta.Obj? && tb.Obj? && Proper(ta) && Proper(tb) && Denotes(Snapshot(a), aoff, ta)
    ensures NodeAt(Snapshot(a), aoff).Some? && NodeAt(Snapshot(a), aoff).value.NObj?
    ensures ta.Kids() == ta.vals && NodeAt(Snapshot(a), aoff).value.Slots() == NodeAt(Snapshot(a), aoff).value.voffs
    ensures var f := FieldsOf(NodeAt(Snapshot(a), aoff).value, ta, tb, sb);
            && f.Valid() && DenotesAll(Snapshot(a), f.voffs, f.tas) && f.names == ta.names && f.tas == ta.vals
            && f.bnames == tb.names && f.tbs == tb.vals && f.voffs == NodeAt(Snapshot(a), aoff).value.voffs
            && RawNode(a, aoff) == Some(NObj(|f.names|, f.names, f.noffs, f.voffs)) && aoff >= 0
  {
    KidsDenoted(Snapshot(a), aoff, ta);
  }

  lemma DiffFlatFrame(a: Bytes, aoff: int, ta: Tree, tb: Tree, sb: Stored, embed: bool, at: int, over: map<int, int>, cache: Cache)
    requires Doc(sb) == tb && Proper(ta) && Proper(tb) && Denotes(Snapshot(a), aoff, ta) && OnlyContainers(over, a)
    requires aoff !in over && (!ta.Leaf? ==> IsContainer(a, aoff) && Inside(a, aoff, ta, aoff))
    requires !(Kind(ta) == Kind(tb) && ta.Obj? && tb.Obj?)
    ensures FrameOK(Diff(a, aoff, ta, tb, sb, embed, at, over, cache), a, aoff, ta, at, over)
  {
    hide Inside, Copy, IsContainer, Denotes, Proper, SameArray, PickUpto, ScalarBytes;
  }

  lemma DiffObjectParts(a: Bytes, aoff: int, f: Fields, at: int, over: map<int, int>, cache: Cache)
    returns (p0: Progress, p: Progress, w: Bytes)
    requires f.Valid() && DenotesAll(Snapshot(a), f.voffs, f.tas)
    ensures p0 == CompareUpto(a, f, |f.names|, at, over, cache) && p == AddUpto(f, |f.bnames|, at, p0)
    ensures w == PatchBytes(aoff, |f.bnames|, p.changes) && |f.bnames| < TWO_31
    ensures DiffObject(a, aoff, f, at, over, cache) ==
            if p.changes == map[] then Diffed(0, false, p.out, p.over, p.cache)
            else Diffed(at + |p.out|, false, p.out + w, p.over[aoff := at + |p.out|], p.cache)
  {
    hide CompareUpto, AddUpto, PatchBytes, Denotes, Less, Ascending;
    p0 := CompareUpto(a, f, |f.names|, at, over, cache);
    p := AddUpto(f, |f.bnames|, at, p0);
    w := PatchBytes(aoff, |f.bnames|, p.changes);
  }

  lemma DiffObjectFrame(a: Bytes, aoff: int, ta: Tree, tb: Tree, sb: Stored, embed: bool, at: int, over: map<int, int>, cache: Cache)
    requires Doc(sb) == tb && ta.Obj? && tb.Obj? && Proper(ta) && Proper(tb) && Denotes(Snapshot(a), aoff, ta)
    requires IsContainer(a, aoff) && Inside(a, aoff, ta, aoff)
    requires var slots := NodeAt(Snapshot(a), aoff).value.Slots();
             && |slots| == |ta.Kids()|
             && forall i, k | 0 <= i < |slots| && Inside(a, slots[i], ta.Kids()[i], k) :: Inside(a, aoff, ta, k)
    requires NodeAt(Snapshot(a), aoff).Some? && NodeAt(Snapshot(a), aoff).value.NObj?
    requires var f := FieldsOf(NodeAt(Snapshot(a), aoff).value, ta, tb, sb);
             f.Valid() && DenotesAll(Snapshot(a), f.voffs, f.tas) && CompareFrameOK(a, f, |f.names|, at, over, cache)
    ensures FrameOK(Diff(a, aoff, ta, tb, sb, embed, at, over, cache), a, aoff, ta, at, over)
  {
    hide *;
    var f := FieldsOf(NodeAt(Snapshot(a), aoff).value, ta, tb, sb);
    FieldsSizes(f);
    DiffIsDiffObject(a, aoff, ta, tb, sb, embed, at, over, cache);
    InsideFields(a, aoff, ta, tb, sb);
    var p0, p, w := DiffObjectParts(a, aoff, f, at, over, cache);
    AddFrame(f, |f.bnames|, at, p0);
    AddExtends(f, |f.bnames|, at, p0);
    PatchIsNotEmpty(aoff, |f.bnames|, p.changes);
    PatchedFrame(DiffObject(a, aoff, f, at, over, cache), a, aoff, ta, f, at, over, cache, p.over, |p.out|);
  }

  lemma FieldsSizes(f: Fields)
    requires f.Valid()
    ensures |f.names| == |f.noffs| == |f.voffs| == |f.tas| && |f.bnames| == |f.tbs|
  {
  }

  lemma InsideFields(a: Bytes, aoff: int, ta: Tree, tb: Tree, sb: Stored)
    requires Doc(sb) == tb && ta.Obj? && tb.Obj? && NodeAt(Snapshot(a), aoff).Some? && NodeAt(Snapshot(a), aoff).value.NObj?
    requires var slots := NodeAt(Snapshot(a), aoff).value.Slots();
             && |slots| == |ta.Kids()|
             && forall i, k | 0 <= i < |slots| && Inside(a, slots[i], ta.Kids()[i], k) :: Inside(a, aoff, ta, k)
    requires FieldsOf(NodeAt(Snapshot(a), aoff).value, ta, tb, sb).Valid()
    ensures var f := FieldsOf(NodeAt(Snapshot(a), aoff).value, ta, tb, sb);
            forall k | InsideAny(a, f.voffs, f.tas, |f.names|, k) :: Inside(a, aoff, ta, k)
  {
    hide Inside, NodeAt;
  }

  lemma DiffIsDiffObject(a: Bytes, aoff: int, ta: Tree, tb: Tree, sb: Stored, embed: bool, at: int, over: map<int, int>, cache: Cache)
    requires Doc(sb) == tb && ta.Obj? && tb.Obj? && Proper(ta) && Proper(tb) && Denotes(Snapshot(a), aoff, ta)
    requires NodeAt(Snapshot(a), aoff).value.NObj?
    requires var f := FieldsOf(NodeAt(Snapshot(a), aoff).value, ta, tb, sb);
             f.Valid() && DenotesAll(Snapshot(a), f.voffs, f.tas)
    ensures var f := FieldsOf(NodeAt(Snapshot(a), aoff).value, ta, tb, sb);
            Diff(a, aoff, ta, tb, sb, embed, at, over, cache) == DiffObject(a, aoff, f, at, over, cache)
  {
    hide DiffObject;
  }

  lemma PatchedFrame(r: Diffed, a: Bytes, aoff: int, ta: Tree, f: Fields, at: int, over: map<int, int>, cache: Cache,
                     over': map<int, int>, len: nat)
    requires f.Valid() && DenotesAll(Snapshot(a), f.voffs, f.tas) && CompareFrameOK(a, f, |f.names|, at, over, cache)
    requires over' == CompareUpto(a, f, |f.names|, at, over, cache).over
    requires |CompareUpto(a, f, |f.names|, at, over, cache).out| <= len
    requires forall k | InsideAny(a, f.voffs, f.tas, |f.names|, k) :: Inside(a, aoff, ta, k)
    requires IsContainer(a, aoff) && Inside(a, aoff, ta, aoff)
    requires !r.changed
    requires (r.over == over' && |r.out| == len) || (r.over == over'[aoff := at + len] && |r.out| > len)
    ensures FrameOK(r, a, aoff, ta, at, over)
  {
    hide Inside, InsideAny, IsContainer, CompareUpto, Denotes;
  }

  ghost predicate CompareFrameOK(a: Bytes, f: Fields, n: nat, at: int, over: map<int, int>, cache: Cache)
    requires f.Valid() && n <= |f.names| && DenotesAll(Snapshot(a), f.voffs, f.tas)
  {
    var p := CompareUpto(a, f, n, at, over, cache);
    && OnlyContainers(p.over, a) && SentTo(p.over, over, at, at + |p.out|)
    && forall k | !InsideAny(a, f.voffs, f.tas, n, k) :: SameAt(p.over, over, k)
  }

  lemma {:induction false} CompareFrame(a: Bytes, f: Fields, n: nat, at: int, over: map<int, int>, cache: Cache)
    requires f.Valid() && n <= |f.names| && DenotesAll(Snapshot(a), f.voffs, f.tas)
    requires OnlyContainers(over, a) && FreshAll(over, a, f.voffs, f.tas)
    requires Disjoint(a, f.voffs, f.tas) && forall i | 0 <= i < |f.tas| :: Apart(a, f.voffs[i], f.tas[i])
    ensures CompareFrameOK(a, f, n, at, over, cache)
    decreases f.tas, n
  {
    if n == 0 {
      return;
    }
    CompareFrame(a, f, n - 1, at, over, cache);
    CompareFrameStep(a, f, n, at, over, cache);
  }

  lemma {:induction false} CompareFrameStep(a: Bytes, f: Fields, n: nat, at: int, over: map<int, int>, cache: Cache)
    requires f.Valid() && 0 < n <= |f.names| && DenotesAll(Snapshot(a), f.voffs, f.tas)
    requires OnlyContainers(over, a) && FreshAll(over, a, f.voffs, f.tas)
    requires Disjoint(a, f.voffs, f.tas) && forall i | 0 <= i < |f.tas| :: Apart(a, f.voffs[i], f.tas[i])
    requires CompareFrameOK(a, f, n - 1, at, over, cache)
    ensures CompareFrameOK(a, f, n, at, over, cache)
    decreases f.tas, n, 0
  {
    hide Inside, Apart, Diff, Disjoint, FreshAll, IsContainer;
    var p := CompareUpto(a, f, n - 1, at, over, cache);
    var j := IndexOf(f.bnames, f.names[n - 1]);
    forall k | !InsideAny(a, f.voffs, f.tas, n, k)
      ensures !InsideAny(a, f.voffs, f.tas, n - 1, k) && !Inside(a, f.voffs[n - 1], f.tas[n - 1], k)
    {
    }
    if j >= 0 {
      FreshNext(a, f.voffs, f.tas, n - 1, p.over, over);
      DiffFrame(a, f.voffs[n - 1], f.tas[n - 1], f.tbs[j], f.sbs[j], true, at + |p.out|, p.over, p.cache);
      var d := Diff(a, f.voffs[n - 1], f.tas[n - 1], f.tbs[j], f.sbs[j], true, at + |p.out|, p.over, p.cache);
      if !d.changed {
        SentToTwice(d.over, p.over, over, at, at + |p.out|, at + |p.out| + |d.out|);
      }
    }
  }

  /** The next element is still untouched, as no container is shared. */
  lemma FreshNext(a: Bytes, offs: seq<int>, ts: seq<Tree>, n: nat, now: map<int, int>, over: map<int, int>)
    requires n < |offs| == |ts| && Disjoint(a, offs, ts) && FreshAll(over, a, offs, ts)
    requires forall k | !InsideAny(a, offs, ts, n, k) :: SameAt(now, over, k)
    ensures Fresh(now, a, offs[n], ts[n])
  {
    forall k | k in now ensures !Inside(a, offs[n], ts[n], k) {
      if !InsideAny(a, offs, ts, n, k) {
        assert SameAt(now, over, k);
        assert Fresh(over, a, offs[n], ts[n]);
      }
    }
  }

  lemma {:induction false} AddFrame(f: Fields, n: nat, at: int, p: Progress)
    requires |f.bnames| == |f.tbs| && n <= |f.bnames|
    ensures AddUpto(f, n, at, p).over == p.over
  {
    hide AddName;
    if n > 0 {
      AddFrame(f, n - 1, at, p);
    }
  }

  lemma PatchIsNotEmpty(aoff: int, len: nat, changes: map<Bytes, Slot>)
    ensures |PatchBytes(aoff, len, changes)| > 0
  {
    hide Words, Be32, PutVarint, ChangeNames, ChangeValues;
  }

  lemma {:induction false} AddExtends(f: Fields, n: nat, at: int, p: Progress)
    requires |f.bnames| == |f.tbs| && n <= |f.bnames|
    ensures p.out <= AddUpto(f, n, at, p).out
  {
    hide AddName;
    if n > 0 {
      AddExtends(f, n - 1, at, p);
    }
  }
}
