/** The delta theorem: reading the old snapshot through its delta gives exactly the
    new document. */
module DeltaProof {
  import opened ByteCodec
  import opened Names
  import opened Trees
  import opened Reader
  import opened StoredShapes
  import opened Containers
  import opened SnapshotFormat
  import opened DeltaValues
  import opened DeltaFormat
  import opened DeltaFrame
  import opened DeltaPatches

  /** The finished delta: the snapshot with everything appended, and all overrides. */
  ghost predicate Finished(v: View, a: Bytes) {
    v.Delta? && v.slen == |a| && a <= v.content && |v.content| < TWO_31 && OnlyContainers(v.over, a)
  }

  /** Below this place, the overrides of the finished delta are already in `over`. */
  ghost predicate Settled(over: map<int, int>, v: View, a: Bytes, off: int, t: Tree)
    requires v.Delta?
  {
    forall k | Inside(a, off, t, k) :: SameAt(over, v.over, k)
  }

  ghost predicate SettledAll(over: map<int, int>, v: View, a: Bytes, offs: seq<int>, ts: seq<Tree>, n: nat)
    requires v.Delta? && n <= |offs| == |ts|
  {
    forall i | 0 <= i < n :: Settled(over, v, a, offs[i], ts[i])
  }

  // ---- Places without overrides read as before ----

  lemma UntouchedNode(a: Bytes, off: int, t: Tree, v: View)
    requires Finished(v, a) && Denotes(Snapshot(a), off, t) && off !in v.over
    ensures NodeAt(v, off) == NodeAt(Snapshot(a), off) && Searchable(v, off)
  {
    hide RawNode, OnlyContainers, PatchAt, OverlayAt;
    if off >= 0 {
      RawNodeExtends(a, v.content, off);
      RawIsNoPatch(v.content, off);
    }
  }

  lemma {:induction false} UntouchedDenotes(a: Bytes, off: int, t: Tree, v: View)
    requires Finished(v, a) && Denotes(Snapshot(a), off, t) && Fresh(v.over, a, off, t)
    ensures Denotes(v, off, t)
    decreases t
  {
    hide NodeAt, Searchable, OnlyContainers, Inside;
    NotOverridden(a, off, t, v.over);
    UntouchedNode(a, off, t, v);
    var slots := NodeAt(v, off).value.Slots();
    assert slots == SlotsAt(a, off);
    forall i | 0 <= i < |t.Kids()| ensures Denotes(v, slots[i], t.Kids()[i]) {
      forall k | k in v.over ensures !Inside(a, slots[i], t.Kids()[i], k) {
        if Inside(a, slots[i], t.Kids()[i], k) {
          InsideKid(a, off, t, i, k);
        }
      }
      UntouchedDenotes(a, slots[i], t.Kids()[i], v);
    }
  }

  lemma SettledFresh(over: map<int, int>, v: View, a: Bytes, off: int, t: Tree)
    requires v.Delta? && Fresh(over, a, off, t) && Settled(over, v, a, off, t)
    ensures Fresh(v.over, a, off, t)
  {
  }

  // ---- Arrays ----

  lemma PickStep(aoffs: seq<int>, sas: seq<Stored>, sbs: seq<Stored>, n: nat, at: int, cache: Cache)
    requires |aoffs| == |sas| && 0 < n <= |sbs|
    ensures var before := PickUpto(aoffs, sas, sbs, n - 1, at, cache);
            var j := FirstEqual(sas, sbs[n - 1]);
            var last := if j >= 0 then Written(aoffs[j], [], before.cache)
                        else Copy(Doc(sbs[n - 1]), at + |before.out|, true, before.cache);
            PickUpto(aoffs, sas, sbs, n, at, cache)
            == WrittenAll(before.offs + [last.off], before.out + last.out, last.cache)
  {
    hide Copy;
  }

  lemma PickNone(aoffs: seq<int>, sas: seq<Stored>, sbs: seq<Stored>, cache: Cache, c: Bytes, v: View)
    requires v.Delta? && |aoffs| == |sas| && DeltaCacheOK(cache, c, v.slen)
    ensures var r := PickUpto(aoffs, sas, sbs, 0, |c|, cache);
            CopiedAll(v, r.offs, Docs(sbs)) && DeltaCacheOK(r.cache, c + r.out, v.slen)
  {
    hide DeltaCacheOK;
    assert c + [] == c;
  }

  /** A picked element: an old one that is equal, or a copy. */
  lemma PickOne(aoffs: seq<int>, sas: seq<Stored>, s: Stored, cache: Cache, c: Bytes, v: View)
    requires v.Delta? && |aoffs| == |sas| && CopiedAll(v, aoffs, Docs(sas)) && Proper(Doc(s))
    requires 0 <= v.slen < |c| && DeltaCacheOK(cache, c, v.slen) && |v.content| < TWO_31
    requires FirstEqual(sas, s) < 0 ==> c + Copy(Doc(s), |c|, true, cache).out <= v.content
    ensures var j := FirstEqual(sas, s);
            var last := if j >= 0 then Written(aoffs[j], [], cache) else Copy(Doc(s), |c|, true, cache);
            CopyOK(last, Doc(s), c, v)
  {
    hide Denotes, DeltaCacheOK, Copy;
    if FirstEqual(sas, s) < 0 {
      CopyCorrect(Doc(s), true, cache, c, v);
    } else {
      assert c + [] == c;
    }
  }

  lemma {:induction false} PickUptoCorrect(aoffs: seq<int>, sas: seq<Stored>, sbs: seq<Stored>, n: nat, cache: Cache, c: Bytes, v: View)
    requires v.Delta? && n <= |sbs| && forall i | 0 <= i < |sbs| :: Proper(Doc(sbs[i]))
    requires |aoffs| == |sas| && CopiedAll(v, aoffs, Docs(sas))
    requires 0 <= v.slen < |c| && DeltaCacheOK(cache, c, v.slen)
    requires c + PickUpto(aoffs, sas, sbs, n, |c|, cache).out <= v.content && |v.content| < TWO_31
    ensures var r := PickUpto(aoffs, sas, sbs, n, |c|, cache);
            CopiedAll(v, r.offs, Docs(sbs)) && DeltaCacheOK(r.cache, c + r.out, v.slen)
  {
    hide *;
    if n == 0 {
      PickNone(aoffs, sas, sbs, cache, c, v);
      return;
    }
    PickStep(aoffs, sas, sbs, n, |c|, cache);
    var r := PickUpto(aoffs, sas, sbs, n, |c|, cache);
    var before := PickUpto(aoffs, sas, sbs, n - 1, |c|, cache);
    var c' := c + before.out;
    var j := FirstEqual(sas, sbs[n - 1]);
    var last := if j >= 0 then Written(aoffs[j], [], before.cache) else Copy(Doc(sbs[n - 1]), |c'|, true, before.cache);
    assert c + r.out == c' + last.out;
    PickUptoCorrect(aoffs, sas, sbs, n - 1, cache, c, v);
    PickOne(aoffs, sas, sbs[n - 1], before.cache, c', v);
    CopyParts(last, Doc(sbs[n - 1]), c', v);
    DocsAt(sbs, n - 1);
    CopiedOneMore(v, before.offs, last.off, Docs(sbs));
  }

  lemma SlotsAreInt32(a: Bytes, off: int)
    requires RawNode(a, off).Some?
    ensures AllInt32(RawNode(a, off).value.Slots())
  {
  }

  /** When only the container itself is overridden, its elements read as before. */
  lemma KidsUntouched(a: Bytes, aoff: int, ta: Tree, over: map<int, int>, over': map<int, int>, v: View)
    requires Finished(v, a) && Denotes(Snapshot(a), aoff, ta) && Apart(a, aoff, ta) && aoff >= 0
    requires Fresh(over, a, aoff, ta) && Settled(over', v, a, aoff, ta)
    requires forall k | k != aoff :: SameAt(over', over, k)
    ensures var slots := NodeAt(Snapshot(a), aoff).value.Slots();
            AllInt32(slots) && DenotesAll(v, slots, ta.Kids())
  {
    var slots := NodeAt(Snapshot(a), aoff).value.Slots();
    assert v.Delta?;
    hide Finished, Inside, Apart, Denotes, RawNode;
    SlotsAreInt32(a, aoff);
    ObjectPlace(a, aoff, ta);
    KidsDenoted(Snapshot(a), aoff, ta);
    forall i | 0 <= i < |ta.Kids()| ensures Denotes(v, slots[i], ta.Kids()[i]) {
      FreshBelow(a, aoff, ta, slots[i], ta.Kids()[i], over, over', v);
      UntouchedDenotes(a, slots[i], ta.Kids()[i], v);
    }
  }

  lemma FreshBelow(a: Bytes, aoff: int, ta: Tree, off: int, t: Tree, over: map<int, int>, over': map<int, int>, v: View)
    requires v.Delta? && Fresh(over, a, aoff, ta) && Settled(over', v, a, aoff, ta)
    requires forall k | k != aoff :: SameAt(over', over, k)
    requires !Inside(a, off, t, aoff) && forall k | Inside(a, off, t, k) :: Inside(a, aoff, ta, k)
    ensures Fresh(v.over, a, off, t)
  {
    hide Inside;
    forall k | k in v.over ensures !Inside(a, off, t, k) {
      var same, settled := SameAt(over', over, k), SameAt(over', v.over, k);
    }
  }

  // ---- Correctness of one comparison ----

  ghost predicate DiffOK(r: Diffed, a: Bytes, aoff: int, tb: Tree, c: Bytes, v: View)
    requires v.Delta?
  {
    && DeltaCacheOK(r.cache, c + r.out, |a|)
    && if r.changed then IsInt32(r.off) && Denotes(v, r.off, tb) else Denotes(v, aoff, tb)
  }

  /** Where a comparison starts: the snapshot and the delta so far. */
  ghost predicate Started(a: Bytes, aoff: int, ta: Tree, over: map<int, int>, cache: Cache, c: Bytes, v: View) {
    && Proper(ta) && Denotes(Snapshot(a), aoff, ta) && Apart(a, aoff, ta)
    && Finished(v, a) && a <= c && |a| < |c|
    && OnlyContainers(over, a) && Fresh(over, a, aoff, ta) && DeltaCacheOK(cache, c, |a|)
  }

  lemma ReplaceCorrect(a: Bytes, aoff: int, tb: Tree, embed: bool, over: map<int, int>, cache: Cache, c: Bytes, v: View)
    requires Proper(tb) && Finished(v, a) && |a| < |c| && DeltaCacheOK(cache, c, |a|)
    requires c + Replace(aoff, tb, |c|, embed, over, cache).out <= v.content
    ensures DiffOK(Replace(aoff, tb, |c|, embed, over, cache), a, aoff, tb, c, v)
  {
    hide DeltaCacheOK, Denotes, Copy, OnlyContainers;
    CopyCorrect(tb, embed, cache, c, v);
  }

  lemma DiffLeafCorrect(a: Bytes, aoff: int, sa: Scalar, sb: Scalar, over: map<int, int>, cache: Cache, c: Bytes, v: View)
    requires Proper(Leaf(sb)) && Tag(sa) == Tag(sb) && Started(a, aoff, Leaf(sa), over, cache, c, v)
    requires var r := DiffLeaf(aoff, sa, sb, |c|, over, cache);
             c + r.out <= v.content && (!r.changed ==> Settled(r.over, v, a, aoff, Leaf(sa)))
    ensures DiffOK(DiffLeaf(aoff, sa, sb, |c|, over, cache), a, aoff, Leaf(sb), c, v)
  {
    hide DeltaCacheOK, Denotes, ScalarBytes, CachedString, RawNode, Inside;
    var r := DiffLeaf(aoff, sa, sb, |c|, over, cache);
    if sa == sb {
      assert c + r.out == c;
      LeafFresh(v.over, a, aoff, sa);
      UntouchedDenotes(a, aoff, Leaf(sa), v);
    } else if sb.Str? {
      CachedStringCorrect(sb.text, cache, c, v);
      BeyondOverrides(v.content, v.slen, v.over, v.lookups, r.off, NLeaf(sb));
      LeafDenoted(v, r.off, sb);
    } else {
      var w := Written(|c|, ScalarBytes(sb), cache);
      CopyScalarCorrect(sb, w, c, v);
      DeltaCacheExtends(cache, c, c + r.out, |a|);
      LeafDenoted(v, r.off, sb);
    }
  }

  lemma LeafFresh(over: map<int, int>, a: Bytes, off: int, s: Scalar)
    ensures Fresh(over, a, off, Leaf(s))
  {
  }

  lemma LeafDenoted(v: View, off: int, s: Scalar)
    requires NodeAt(v, off) == Some(NLeaf(s))
    ensures Denotes(v, off, Leaf(s))
  {
  }

  lemma OverriddenNode(v: View, off: int, at: int, n: Node)
    requires v.Delta? && 0 <= off <= v.slen && off in v.over && v.over[off] == at
    requires RawNode(v.content, at) == Some(n)
    ensures NodeAt(v, off) == Some(n)
  {
  }

  lemma ArrayDenoted(v: View, off: int, offs: seq<int>, elems: seq<Tree>)
    requires |offs| == |elems| && NodeAt(v, off) == Some(NArr(offs)) && CopiedAll(v, offs, elems)
    ensures Denotes(v, off, Arr(elems))
  {
  }

  lemma DiffArrayParts(aoff: int, aoffs: seq<int>, sas: seq<Stored>, sbs: seq<Stored>, at: int, over: map<int, int>, cache: Cache)
    returns (kids: WrittenAll, head: Bytes)
    requires |aoffs| == |sas| && !SameArray(aoffs, sas, sbs)
    ensures |kids.offs| == |sbs| && head == [T_ARRAY] + PutVarint(|sbs|) + Words(kids.offs)
    ensures kids == PickUpto(aoffs, sas, sbs, |sbs|, at + |head|, cache)
    ensures DiffArray(aoff, aoffs, sas, sbs, at, over, cache)
         == Diffed(at, false, head + kids.out, over[aoff := at], kids.cache)
  {
    hide Words, PutVarint, PickUpto, SameArray;
    kids := PickUpto(aoffs, sas, sbs, |sbs|, at + 1 + |PutVarint(|sbs|)| + 4 * |sbs|, cache);
    head := [T_ARRAY] + PutVarint(|sbs|) + Words(kids.offs);
  }

  lemma StartedFacts(a: Bytes, aoff: int, ta: Tree, over: map<int, int>, cache: Cache, c: Bytes, v: View)
    requires Started(a, aoff, ta, over, cache, c, v)
    ensures v.Delta? && 0 <= v.slen == |a| < |c| && |v.content| < TWO_31 && DeltaCacheOK(cache, c, v.slen)
    ensures a <= c && a <= v.content
  {
  }

  lemma ProperArray(elems: seq<Tree>)
    requires Proper(Arr(elems))
    ensures |elems| < TWO_31 && forall i | 0 <= i < |elems| :: Proper(elems[i])
  {
  }

  lemma CopiedFrom(v: View, offs: seq<int>, ts: seq<Tree>)
    requires AllInt32(offs) && DenotesAll(v, offs, ts)
    ensures |offs| == |ts| && CopiedAll(v, offs, ts)
  {
  }

  /** A changed array: its place is overridden by a new array in the delta, whose
      elements are copies or old elements that no override touches. */
  lemma ChangedArrayCorrect(a: Bytes, aoff: int, ta: Tree, sas: seq<Stored>, sbs: seq<Stored>, over: map<int, int>, cache: Cache,
                            c: Bytes, v: View)
    requires ta.Arr? && Proper(Arr(Docs(sbs))) && Started(a, aoff, ta, over, cache, c, v) && ta.elems == Docs(sas)
    requires RawNode(a, aoff).Some? && RawNode(a, aoff).value.NArr? && 0 <= aoff < |a|
    requires var aoffs := RawNode(a, aoff).value.offs;
             && |aoffs| == |sas| && AllInt32(aoffs) && DenotesAll(v, aoffs, ta.elems)
             && !SameArray(aoffs, sas, sbs)
             && c + DiffArray(aoff, aoffs, sas, sbs, |c|, over, cache).out <= v.content
    requires aoff in v.over && v.over[aoff] == |c|
    ensures DiffOK(DiffArray(aoff, RawNode(a, aoff).value.offs, sas, sbs, |c|, over, cache), a, aoff, Arr(Docs(sbs)), c, v)
  {
    hide *;
    var aoffs := RawNode(a, aoff).value.offs;
    StartedFacts(a, aoff, ta, over, cache, c, v);
    ProperArray(Docs(sbs));
    ProperDocs(sbs);
    CopiedFrom(v, aoffs, ta.elems);
    var kids, head := DiffArrayParts(aoff, aoffs, sas, sbs, |c|, over, cache);
    assert c + (head + kids.out) == c + head + kids.out;
    DeltaCacheExtends(cache, c, c + head, |a|);
    PickUptoCorrect(aoffs, sas, sbs, |sbs|, cache, c + head, v);
    AtAppended(c, head, v.content);
    AllOffsets(v, kids.offs, Docs(sbs));
    ArrayReadBack(v.content, |c|, kids.offs);
    OverriddenNode(v, aoff, |c|, NArr(kids.offs));
    ArrayDenoted(v, aoff, kids.offs, Docs(sbs));
    UnchangedOK(DiffArray(aoff, aoffs, sas, sbs, |c|, over, cache), a, aoff, Arr(Docs(sbs)), c, v);
  }

  lemma ProperDocs(ss: seq<Stored>)
    requires forall i | 0 <= i < |ss| :: Proper(Docs(ss)[i])
    ensures forall i | 0 <= i < |ss| :: Proper(Doc(ss[i]))
  {
    forall i | 0 <= i < |ss| ensures Proper(Doc(ss[i])) {
      DocsAt(ss, i);
    }
  }

  lemma AllOffsets(v: View, offs: seq<int>, ts: seq<Tree>)
    requires |offs| <= |ts| && CopiedAll(v, offs, ts)
    ensures AllInt32(offs)
  {
  }

  lemma UnchangedOK(r: Diffed, a: Bytes, aoff: int, tb: Tree, c: Bytes, v: View)
    requires v.Delta? && !r.changed && DeltaCacheOK(r.cache, c + r.out, |a|) && Denotes(v, aoff, tb)
    ensures DiffOK(r, a, aoff, tb, c, v)
  {
  }

  lemma DiffArrayCorrect(a: Bytes, aoff: int, ta: Tree, sbs: seq<Stored>, over: map<int, int>, cache: Cache, c: Bytes, v: View)
    requires ta.Arr? && Proper(Arr(Docs(sbs))) && Started(a, aoff, ta, over, cache, c, v)
    requires RawNode(a, aoff).Some? && RawNode(a, aoff).value.NArr? && DenotesAll(Snapshot(a), RawNode(a, aoff).value.offs, ta.elems)
    requires var aoffs := RawNode(a, aoff).value.offs;
             var r := DiffArray(aoff, aoffs, StoredAll(Snapshot(a), aoffs, ta.elems), sbs, |c|, over, cache);
             c + r.out <= v.content && Settled(r.over, v, a, aoff, ta)
    ensures var aoffs := RawNode(a, aoff).value.offs;
            DiffOK(DiffArray(aoff, aoffs, StoredAll(Snapshot(a), aoffs, ta.elems), sbs, |c|, over, cache),
                   a, aoff, Arr(Docs(sbs)), c, v)
  {
    assert |RawNode(a, aoff).value.offs| == |ta.elems|;
    hide *;
    var aoffs := RawNode(a, aoff).value.offs;
    var sas := StoredAll(Snapshot(a), aoffs, ta.elems);
    StartedFacts(a, aoff, ta, over, cache, c, v);
    if SameArray(aoffs, sas, sbs) {
      SameArrayIsEqual(Snapshot(a), aoffs, ta.elems, sbs);
      SameArrayCorrect(a, aoff, ta, sas, sbs, over, cache, c, v);
    } else {
      StoredAllDocs(Snapshot(a), aoffs, ta.elems);
      ArrayPlace(a, aoff, ta, sas, sbs, over, cache, c, v);
      ChangedArrayCorrect(a, aoff, ta, sas, sbs, over, cache, c, v);
    }
  }

  lemma SameArrayCorrect(a: Bytes, aoff: int, ta: Tree, sas: seq<Stored>, sbs: seq<Stored>, over: map<int, int>, cache: Cache,
                         c: Bytes, v: View)
    requires ta.Arr? && ta.elems == Docs(sbs) && Started(a, aoff, ta, over, cache, c, v)
    requires RawNode(a, aoff).Some? && RawNode(a, aoff).value.NArr? && |RawNode(a, aoff).value.offs| == |sas|
    requires SameArray(RawNode(a, aoff).value.offs, sas, sbs)
    requires Settled(DiffArray(aoff, RawNode(a, aoff).value.offs, sas, sbs, |c|, over, cache).over, v, a, aoff, ta)
    ensures DiffOK(DiffArray(aoff, RawNode(a, aoff).value.offs, sas, sbs, |c|, over, cache), a, aoff, Arr(Docs(sbs)), c, v)
  {
    hide DeltaCacheOK, Denotes, Inside, Apart, RawNode, SameArray, PickUpto, Docs;
    SettledFresh(over, v, a, aoff, ta);
    UntouchedDenotes(a, aoff, ta, v);
    assert c + [] == c;
  }

  /** A changed array: its place is overridden, and its elements are not. */
  lemma ArrayPlace(a: Bytes, aoff: int, ta: Tree, sas: seq<Stored>, sbs: seq<Stored>, over: map<int, int>, cache: Cache,
                   c: Bytes, v: View)
    requires ta.Arr? && Started(a, aoff, ta, over, cache, c, v)
    requires RawNode(a, aoff).Some? && RawNode(a, aoff).value.NArr? && |RawNode(a, aoff).value.offs| == |sas|
    requires !SameArray(RawNode(a, aoff).value.offs, sas, sbs)
    requires Settled(DiffArray(aoff, RawNode(a, aoff).value.offs, sas, sbs, |c|, over, cache).over, v, a, aoff, ta)
    ensures 0 <= aoff < |a| && aoff in v.over && v.over[aoff] == |c|
    ensures AllInt32(RawNode(a, aoff).value.offs) && DenotesAll(v, RawNode(a, aoff).value.offs, ta.elems)
  {
    assert 0 <= aoff < |a|;
    hide DeltaCacheOK, Denotes, Inside, Apart, RawNode, SameArray, PickUpto;
    InsideSelf(a, aoff, ta);
    var over' := over[aoff := |c|];
    assert SameAt(over', v.over, aoff);
    KidsUntouched(a, aoff, ta, over, over', v);
  }

  // ---- Objects: the names of the old object ----

  ghost predicate CompareStart(a: Bytes, f: Fields, over: map<int, int>, cache: Cache, c: Bytes, v: View) {
    && f.Valid() && DenotesAll(Snapshot(a), f.voffs, f.tas) && Disjoint(a, f.voffs, f.tas)
    && (forall i | 0 <= i < |f.tas| :: Apart(a, f.voffs[i], f.tas[i]))
    && OnlyContainers(over, a) && FreshAll(over, a, f.voffs, f.tas)
    && Finished(v, a) && a <= c && |a| < |c| && DeltaCacheOK(cache, c, |a|)
  }

  /** The first `n` names have been compared. */
  ghost predicate CompareOK(p: Progress, f: Fields, n: nat, c: Bytes, v: View)
    requires v.Delta? && f.Valid() && n <= |f.names|
  {
    && DeltaCacheOK(p.cache, c + p.out, v.slen)
    && (forall i | 0 <= i < n :: FieldOK(p.changes, f, i, v))
    && (forall name | name in p.changes :: name in f.names[..n])
  }

  lemma FieldKept(m: map<Bytes, Slot>, m': map<Bytes, Slot>, f: Fields, i: int, v: View)
    requires f.Valid() && 0 <= i < |f.names| && FieldOK(m, f, i, v)
    requires f.names[i] in m <==> f.names[i] in m'
    requires f.names[i] in m ==> m[f.names[i]] == m'[f.names[i]]
    ensures FieldOK(m', f, i, v)
  {
    hide Denotes;
  }

  /** A later name never touches what was decided for an earlier one. */
  lemma EarlierFieldsKept(m: map<Bytes, Slot>, m': map<Bytes, Slot>, f: Fields, n: nat, v: View)
    requires f.Valid() && n < |f.names| && forall i | 0 <= i < n :: FieldOK(m, f, i, v)
    requires forall name | name != f.names[n] :: (name in m <==> name in m') && (name in m ==> m[name] == m'[name])
    ensures forall i | 0 <= i < n :: FieldOK(m', f, i, v)
  {
    hide FieldOK;
    forall i | 0 <= i < n ensures FieldOK(m', f, i, v) {
      LessIsStrict(f.names[i], f.names[n]);
      FieldKept(m, m', f, i, v);
    }
  }

  lemma NewFieldName(f: Fields, n: nat)
    requires f.Valid() && n < |f.names|
    ensures f.names[n] !in f.names[..n] && f.names[n] in f.names[..n + 1]
    ensures forall name | name in f.names[..n] :: name in f.names[..n + 1]
  {
    forall i | 0 <= i < n ensures f.names[i] != f.names[n] {
      LessIsStrict(f.names[i], f.names[n]);
    }
    assert f.names[..n + 1] == f.names[..n] + [f.names[n]];
  }

  lemma RemoveNameOK(p: Progress, f: Fields, n: nat, c: Bytes, v: View)
    requires v.Delta? && f.Valid() && n < |f.names| && CompareOK(p, f, n, c, v)
    requires IndexOf(f.bnames, f.names[n]) < 0
    ensures CompareOK(RemoveName(f, n, p), f, n + 1, c, v)
  {
    hide Denotes, DeltaCacheOK;
    NewFieldName(f, n);
    EarlierFieldsKept(p.changes, RemoveName(f, n, p).changes, f, n, v);
  }

  lemma KeepNameOK(p: Progress, d: Diffed, a: Bytes, f: Fields, n: nat, c: Bytes, v: View)
    requires v.Delta? && |a| == v.slen && f.Valid() && n < |f.names| && CompareOK(p, f, n, c, v)
    requires IndexOf(f.bnames, f.names[n]) >= 0
    requires DiffOK(d, a, f.voffs[n], f.tbs[IndexOf(f.bnames, f.names[n])], c + p.out, v)
    ensures CompareOK(KeepName(f, n, p, d), f, n + 1, c, v)
  {
    hide Denotes, DeltaCacheOK;
    NewFieldName(f, n);
    EarlierFieldsKept(p.changes, KeepName(f, n, p, d).changes, f, n, v);
    assert c + (p.out + d.out) == c + p.out + d.out;
  }

  /** What was settled after this name was settled before it, for earlier names. */
  lemma SettledEarlier(a: Bytes, f: Fields, n: nat, p: Progress, d: Diffed, at: int, v: View)
    requires v.Delta? && f.Valid() && n < |f.names| && Disjoint(a, f.voffs, f.tas)
    requires FrameOK(d, a, f.voffs[n], f.tas[n], at, p.over)
    requires SettledAll(KeepName(f, n, p, d).over, v, a, f.voffs, f.tas, n + 1)
    ensures SettledAll(p.over, v, a, f.voffs, f.tas, n)
    ensures !d.changed ==> Settled(d.over, v, a, f.voffs[n], f.tas[n])
  {
    hide Inside, OnlyContainers;
    var over := KeepName(f, n, p, d).over;
    forall i | 0 <= i < n ensures Settled(p.over, v, a, f.voffs[i], f.tas[i]) {
      assert Settled(over, v, a, f.voffs[i], f.tas[i]);
      forall k | Inside(a, f.voffs[i], f.tas[i], k) ensures SameAt(p.over, v.over, k) {
        assert !Inside(a, f.voffs[n], f.tas[n], k);
        assert SameAt(over, p.over, k);
      }
    }
    assert Settled(over, v, a, f.voffs[n], f.tas[n]);
  }

  lemma CompareNone(a: Bytes, f: Fields, over: map<int, int>, cache: Cache, c: Bytes, v: View)
    requires CompareStart(a, f, over, cache, c, v)
    ensures CompareOK(CompareUpto(a, f, 0, |c|, over, cache), f, 0, c, v)
  {
    hide DeltaCacheOK, Denotes, Apart, Disjoint;
    assert c + [] == c;
  }

  lemma CompareStep(a: Bytes, f: Fields, n: nat, at: int, over: map<int, int>, cache: Cache)
    requires f.Valid() && n < |f.names| && DenotesAll(Snapshot(a), f.voffs, f.tas)
    ensures var p, j := CompareUpto(a, f, n, at, over, cache), IndexOf(f.bnames, f.names[n]);
            CompareUpto(a, f, n + 1, at, over, cache) ==
              if j < 0 then RemoveName(f, n, p)
              else KeepName(f, n, p, Diff(a, f.voffs[n], f.tas[n], f.tbs[j], f.sbs[j], true, at + |p.out|, p.over, p.cache))
  {
    hide Denotes, Diff;
  }

  lemma CompareStartFacts(a: Bytes, f: Fields, over: map<int, int>, cache: Cache, c: Bytes, v: View)
    requires CompareStart(a, f, over, cache, c, v)
    ensures v.Delta? && v.slen == |a| && f.Valid() && DenotesAll(Snapshot(a), f.voffs, f.tas)
    ensures Disjoint(a, f.voffs, f.tas) && OnlyContainers(over, a) && FreshAll(over, a, f.voffs, f.tas)
    ensures |f.names| == |f.voffs| == |f.noffs| == |f.tas| && |f.bnames| == |f.tbs|
    ensures forall i | 0 <= i < |f.tas| :: Apart(a, f.voffs[i], f.tas[i])
  {
  }

  lemma {:induction false} CompareCorrect(a: Bytes, f: Fields, n: nat, over: map<int, int>, cache: Cache, c: Bytes, v: View)
    requires CompareStart(a, f, over, cache, c, v) && n <= |f.names|
    requires var p := CompareUpto(a, f, n, |c|, over, cache);
             c + p.out <= v.content && SettledAll(p.over, v, a, f.voffs, f.tas, n)
    ensures CompareOK(CompareUpto(a, f, n, |c|, over, cache), f, n, c, v)
    decreases f.tas, n
  {
    hide *;
    CompareStartFacts(a, f, over, cache, c, v);
    if n == 0 {
      CompareNone(a, f, over, cache, c, v);
      return;
    }
    CompareStep(a, f, n - 1, |c|, over, cache);
    var p := CompareUpto(a, f, n - 1, |c|, over, cache);
    var j := IndexOf(f.bnames, f.names[n - 1]);
    if j < 0 {
      RemoveSettled(f, n - 1, p, v, a);
      CompareCorrect(a, f, n - 1, over, cache, c, v);
      RemoveNameOK(p, f, n - 1, c, v);
    } else {
      CompareKept(a, f, n, over, cache, c, v, p, j);
    }
  }

  lemma RemoveSettled(f: Fields, n: nat, p: Progress, v: View, a: Bytes)
    requires v.Delta? && f.Valid() && n < |f.names| && SettledAll(RemoveName(f, n, p).over, v, a, f.voffs, f.tas, n + 1)
    ensures SettledAll(p.over, v, a, f.voffs, f.tas, n) && RemoveName(f, n, p).out == p.out
  {
    hide Settled;
  }

  lemma {:induction false} CompareKept(a: Bytes, f: Fields, n: nat, over: map<int, int>, cache: Cache, c: Bytes, v: View,
                                       p: Progress, j: int)
    requires CompareStart(a, f, over, cache, c, v) && 0 < n <= |f.names|
    requires j == IndexOf(f.bnames, f.names[n - 1]) >= 0 && p == CompareUpto(a, f, n - 1, |c|, over, cache)
    requires var q := KeepName(f, n - 1, p, Diff(a, f.voffs[n - 1], f.tas[n - 1], f.tbs[j], f.sbs[j], true, |c| + |p.out|, p.over, p.cache));
             c + q.out <= v.content && SettledAll(q.over, v, a, f.voffs, f.tas, n)
    ensures var q := KeepName(f, n - 1, p, Diff(a, f.voffs[n - 1], f.tas[n - 1], f.tbs[j], f.sbs[j], true, |c| + |p.out|, p.over, p.cache));
            CompareOK(q, f, n, c, v)
    decreases f.tas, n, 0
  {
    hide *;
    CompareStartFacts(a, f, over, cache, c, v);
    var i, c' := n - 1, c + p.out;
    FieldDenoted(a, f, i, j);
    var d := Diff(a, f.voffs[i], f.tas[i], f.tbs[j], f.sbs[j], true, |c'|, p.over, p.cache);
    CompareFrame(a, f, i, |c|, over, cache);
    CompareFrameFacts(a, f, i, |c|, over, cache);
    FreshNext(a, f.voffs, f.tas, i, p.over, over);
    DiffFrame(a, f.voffs[i], f.tas[i], f.tbs[j], f.sbs[j], true, |c'|, p.over, p.cache);
    SettledEarlier(a, f, i, p, d, |c'|, v);
    KeepNameOut(f, i, p, d);
    assert c + (p.out + d.out) == c' + d.out;
    CompareCorrect(a, f, i, over, cache, c, v);
    StartField(a, f, i, over, cache, c, v, p);
    DiffCorrect(a, f.voffs[i], f.tas[i], f.tbs[j], f.sbs[j], true, p.over, p.cache, c', v);
    KeepNameOK(p, d, a, f, i, c, v);
  }

  lemma FieldDenoted(a: Bytes, f: Fields, i: nat, j: nat)
    requires f.Valid() && i < |f.names| && j < |f.bnames| && DenotesAll(Snapshot(a), f.voffs, f.tas)
    ensures Denotes(Snapshot(a), f.voffs[i], f.tas[i]) && Proper(f.tas[i]) && Proper(f.tbs[j])
    ensures |f.sbs| == |f.tbs| && Doc(f.sbs[j]) == f.tbs[j]
  {
  }

  lemma CompareFrameFacts(a: Bytes, f: Fields, n: nat, at: int, over: map<int, int>, cache: Cache)
    requires f.Valid() && n <= |f.names| && DenotesAll(Snapshot(a), f.voffs, f.tas)
    requires CompareFrameOK(a, f, n, at, over, cache)
    ensures var p := CompareUpto(a, f, n, at, over, cache);
            && OnlyContainers(p.over, a)
            && forall k | !InsideAny(a, f.voffs, f.tas, n, k) :: SameAt(p.over, over, k)
  {
  }

  lemma KeepNameOut(f: Fields, i: nat, p: Progress, d: Diffed)
    requires i < |f.names| == |f.noffs| == |f.voffs|
    ensures KeepName(f, i, p, d).out == p.out + d.out
  {
  }

  lemma StartField(a: Bytes, f: Fields, i: nat, over: map<int, int>, cache: Cache, c: Bytes, v: View, p: Progress)
    requires CompareStart(a, f, over, cache, c, v) && i < |f.names|
    requires CompareOK(p, f, i, c, v) && OnlyContainers(p.over, a) && Fresh(p.over, a, f.voffs[i], f.tas[i])
    ensures Started(a, f.voffs[i], f.tas[i], p.over, p.cache, c + p.out, v)
  {
    hide Denotes, Apart, DeltaCacheOK, Inside, IsContainer, FieldOK;
    FieldProper(f, i);
    assert a <= c <= c + p.out;
  }

  lemma FieldProper(f: Fields, i: nat)
    requires f.Valid() && i < |f.names|
    ensures Proper(f.tas[i])
  {
  }

  // ---- Objects: the names only the new object has ----

  ghost predicate AddOK(p: Progress, f: Fields, n: nat, c: Bytes, v: View)
    requires v.Delta? && f.Valid() && n <= |f.bnames|
  {
    && DeltaCacheOK(p.cache, c + p.out, v.slen)
    && (forall i | 0 <= i < |f.names| :: FieldOK(p.changes, f, i, v))
    && (forall j | 0 <= j < n :: AddedOK(p.changes, f, j, v))
    && (forall name | name in p.changes :: name in f.names || name in f.bnames[..n])
  }

  lemma AddStart(p: Progress, f: Fields, c: Bytes, v: View)
    requires v.Delta? && f.Valid() && CompareOK(p, f, |f.names|, c, v)
    ensures AddOK(p, f, 0, c, v)
  {
    hide DeltaCacheOK, FieldOK;
    assert f.names[..|f.names|] == f.names;
  }

  lemma AddedKept(m: map<Bytes, Slot>, m': map<Bytes, Slot>, f: Fields, n: nat, v: View)
    requires f.Valid() && n < |f.bnames| && f.bnames[n] !in f.names
    requires forall i | 0 <= i < |f.names| :: FieldOK(m, f, i, v)
    requires forall j | 0 <= j < n :: AddedOK(m, f, j, v)
    requires forall name | name != f.bnames[n] :: (name in m <==> name in m') && (name in m ==> m[name] == m'[name])
    ensures forall i | 0 <= i < |f.names| :: FieldOK(m', f, i, v)
    ensures forall j | 0 <= j < n :: AddedOK(m', f, j, v)
  {
    hide Denotes, StringAt;
    forall i | 0 <= i < |f.names| ensures FieldOK(m', f, i, v) {
      assert f.names[i] in f.names;
      FieldKept(m, m', f, i, v);
    }
    forall j | 0 <= j < n ensures AddedOK(m', f, j, v) {
      LessIsStrict(f.bnames[j], f.bnames[n]);
      assert AddedOK(m, f, j, v);
    }
  }

  lemma AddNameOK(p: Progress, f: Fields, n: nat, c: Bytes, v: View, s: Written, r: Written)
    requires v.Delta? && f.Valid() && n < |f.bnames| && f.bnames[n] !in f.names && AddOK(p, f, n, c, v)
    requires IsInt32(s.off + 1) && StringAt(v.content, s.off + 1) == Some(f.bnames[n])
    requires IsInt32(r.off) && Denotes(v, r.off, f.tbs[n])
    requires DeltaCacheOK(r.cache, c + p.out + s.out + r.out, v.slen)
    ensures AddOK(Progress(p.changes[f.bnames[n] := Slot(s.off + 1, r.off)], p.out + s.out + r.out, p.over, r.cache), f, n + 1, c, v)
  {
    hide Denotes, StringAt, DeltaCacheOK, FieldOK;
    var m := p.changes[f.bnames[n] := Slot(s.off + 1, r.off)];
    AddedKept(p.changes, m, f, n, v);
    assert c + (p.out + s.out + r.out) == c + p.out + s.out + r.out;
    assert f.bnames[..n + 1] == f.bnames[..n] + [f.bnames[n]];
    assert AddedOK(m, f, n, v);
  }

  lemma SkipNameOK(p: Progress, f: Fields, n: nat, c: Bytes, v: View)
    requires v.Delta? && f.Valid() && n < |f.bnames| && f.bnames[n] in f.names && AddOK(p, f, n, c, v)
    ensures AddOK(p, f, n + 1, c, v)
  {
    hide DeltaCacheOK, FieldOK;
    assert f.bnames[..n + 1] == f.bnames[..n] + [f.bnames[n]];
    forall j | 0 <= j < n + 1 ensures AddedOK(p.changes, f, j, v) {
    }
  }

  lemma AddStep(f: Fields, n: nat, at: int, p: Progress) returns (q: Progress, s: Written, r: Written)
    requires |f.bnames| == |f.tbs| && n < |f.bnames|
    ensures q == AddUpto(f, n, at, p) && s == CachedString(f.bnames[n], at + |q.out|, q.cache)
    ensures r == Copy(f.tbs[n], at + |q.out| + |s.out|, true, s.cache)
    ensures AddUpto(f, n + 1, at, p) ==
            if f.bnames[n] in f.names then q
            else Progress(q.changes[f.bnames[n] := Slot(s.off + 1, r.off)], q.out + s.out + r.out, q.over, r.cache)
  {
    hide Copy, CachedString;
    q := AddUpto(f, n, at, p);
    s := CachedString(f.bnames[n], at + |q.out|, q.cache);
    r := Copy(f.tbs[n], at + |q.out| + |s.out|, true, s.cache);
  }

  lemma AddOKFacts(p: Progress, f: Fields, n: nat, c: Bytes, v: View)
    requires v.Delta? && f.Valid() && n <= |f.bnames| && AddOK(p, f, n, c, v)
    ensures DeltaCacheOK(p.cache, c + p.out, v.slen)
  {
  }

  lemma NewFieldProper(f: Fields, j: nat)
    requires f.Valid() && j < |f.bnames|
    ensures Proper(f.tbs[j]) && |f.bnames[j]| < TWO_31
  {
  }

  lemma {:induction false} AddUptoCorrect(f: Fields, n: nat, p: Progress, c: Bytes, v: View)
    requires v.Delta? && f.Valid() && n <= |f.bnames| && 0 <= v.slen < |c| && |v.content| < TWO_31
    requires AddOK(p, f, 0, c, v) && c + AddUpto(f, n, |c|, p).out <= v.content
    ensures AddOK(AddUpto(f, n, |c|, p), f, n, c, v)
  {
    hide *;
    FieldsSizes(f);
    if n == 0 {
      AddNone(f, |c|, p);
      return;
    }
    var q, s, r := AddStep(f, n - 1, |c|, p);
    var c' := c + q.out;
    if f.bnames[n - 1] in f.names {
      AddUptoCorrect(f, n - 1, p, c, v);
      SkipNameOK(q, f, n - 1, c, v);
    } else {
      assert c + (q.out + s.out + r.out) == c' + s.out + r.out;
      AddUptoCorrect(f, n - 1, p, c, v);
      AddOKFacts(q, f, n - 1, c, v);
      NewFieldProper(f, n - 1);
      CachedStringCorrect(f.bnames[n - 1], q.cache, c', v);
      StringBehindType(v.content, s.off, f.bnames[n - 1]);
      Int32Below(s.off + 1, |v.content|);
      CopyCorrect(f.tbs[n - 1], true, s.cache, c' + s.out, v);
      CopyParts(r, f.tbs[n - 1], c' + s.out, v);
      AddNameOK(q, f, n - 1, c, v, s, r);
    }
  }

  lemma AddNone(f: Fields, at: int, p: Progress)
    requires |f.bnames| == |f.tbs|
    ensures AddUpto(f, 0, at, p) == p
  {
  }

  // ---- Objects: the patch ----

  /** The names of the changes stand where their offsets say. */
  lemma ChangeNamesStand(changes: map<Bytes, Slot>, f: Fields, v: View)
    requires f.Valid() && ChangesOK(changes, f, v) && AllInt32(f.noffs)
    requires forall i | 0 <= i < |f.names| :: StringAt(v.content, f.noffs[i]) == Some(f.names[i])
    ensures var names := Sorted(changes.Keys);
            && NamesFrom(v.content, ChangeNames(changes, names)) == Some(names)
            && AllInt32(ChangeNames(changes, names)) && AllInt32(ChangeValues(changes, names))
  {
    hide Denotes, StringAt, NamesFrom;
    var names := Sorted(changes.Keys);
    var noffs := ChangeNames(changes, names);
    forall k | 0 <= k < |names|
      ensures StringAt(v.content, noffs[k]) == Some(names[k])
      ensures IsInt32(noffs[k]) && IsInt32(changes[names[k]].value)
    {
      assert names[k] in changes;
      if names[k] in f.names {
        var i := IndexOf(f.names, names[k]);
        assert FieldOK(changes, f, i, v);
      } else {
        var j := IndexOf(f.bnames, names[k]);
        assert AddedOK(changes, f, j, v);
      }
    }
    NamesAreFrom(v.content, noffs, names);
  }

  lemma PatchIsRead(aoff: int, len: nat, changes: map<Bytes, Slot>, d: Bytes, at: int)
    requires 0 <= aoff < TWO_31 && len < TWO_31 && |d| < TWO_31 && At(d, at, PatchBytes(aoff, len, changes))
    requires var names := Sorted(changes.Keys);
             && NamesFrom(d, ChangeNames(changes, names)) == Some(names)
             && AllInt32(ChangeNames(changes, names)) && AllInt32(ChangeValues(changes, names))
    ensures 0 <= at < |d| && d[at] == T_OBJECT_PATCH
    ensures var names := Sorted(changes.Keys);
            PatchAt(d, at) == Some(Patch(aoff, len, names, ChangeNames(changes, names), ChangeValues(changes, names)))
  {
    hide At, Be32, PutVarint, Words, NamesFrom, PatchAt, ChangeNames, ChangeValues, SlotMap;
    var names := Sorted(changes.Keys);
    ChangesReadBack(changes);
    WordsFit(d, at, PatchBytes(aoff, len, changes));
    PatchReadBack(d, at, aoff, len, names, ChangeNames(changes, names), ChangeValues(changes, names),
                  Words(ChangeNames(changes, names)), Words(ChangeValues(changes, names)));
  }

  lemma OldNamesStand(a: Bytes, aoff: int, f: Fields, d: Bytes)
    requires f.Valid() && a <= d && RawNode(a, aoff) == Some(NObj(|f.names|, f.names, f.noffs, f.voffs))
    ensures RawObject(d, aoff) == Some(NObj(|f.names|, f.names, f.noffs, f.voffs)) && 0 <= aoff < |a|
    ensures AllInt32(f.noffs) && forall i | 0 <= i < |f.names| :: StringAt(d, f.noffs[i]) == Some(f.names[i])
  {
    RawObjectExtends(a, d, aoff);
    RawObjectNames(d, aoff);
    hide RawObject, StringAt;
    forall i | 0 <= i < |f.names| ensures StringAt(d, f.noffs[i]) == Some(f.names[i]) {
      NameOf(d, f.noffs, i);
    }
  }

  lemma RawObjectNames(c: Bytes, off: int)
    requires RawObject(c, off).Some?
    ensures var n := RawObject(c, off).value; NamesFrom(c, n.noffs) == Some(n.names) && AllInt32(n.noffs)
  {
  }

  // ---- Objects: the whole comparison ----

  ghost predicate ObjectStart(a: Bytes, aoff: int, ta: Tree, f: Fields, v: View) {
    && f.Valid() && v.Delta? && RawNode(a, aoff) == Some(NObj(|f.names|, f.names, f.noffs, f.voffs))
    && Inside(a, aoff, ta, aoff)
    && (forall i, k | 0 <= i < |f.tas| && Inside(a, f.voffs[i], f.tas[i], k) :: Inside(a, aoff, ta, k) && k != aoff)
  }

  lemma ObjectSettled(a: Bytes, aoff: int, ta: Tree, f: Fields, over: map<int, int>, over': map<int, int>, v: View)
    requires ObjectStart(a, aoff, ta, f, v) && Settled(over', v, a, aoff, ta)
    requires forall k | k != aoff :: SameAt(over', over, k)
    ensures SettledAll(over, v, a, f.voffs, f.tas, |f.names|)
  {
    hide Inside, RawNode;
    forall i | 0 <= i < |f.names| ensures Settled(over, v, a, f.voffs[i], f.tas[i]) {
      forall k | Inside(a, f.voffs[i], f.tas[i], k) ensures SameAt(over, v.over, k) {
        assert SameAt(over', over, k) && SameAt(over', v.over, k);
      }
    }
  }

  /** Without changes to list, the object itself is as it was, and its values have
      been seen to where they stand. */
  lemma UnchangedObject(a: Bytes, aoff: int, f: Fields, v: View)
    requires f.Valid() && Finished(v, a) && ChangesOK(map[], f, v) && aoff !in v.over && 0 <= aoff
    requires RawNode(a, aoff) == Some(NObj(|f.names|, f.names, f.noffs, f.voffs))
    ensures Denotes(v, aoff, Obj(f.bnames, f.tbs))
  {
    RawNodeExtends(a, v.content, aoff);
    hide Denotes, RawNode, OnlyContainers;
    forall n ensures n in f.names <==> n in f.bnames {
      if n in f.names { assert FieldOK(map[], f, IndexOf(f.names, n), v); }
      if n in f.bnames { assert AddedOK(map[], f, IndexOf(f.bnames, n), v); }
    }
    AscendingIsUnique(f.names, f.bnames);
    forall j | 0 <= j < |f.bnames| ensures Denotes(v, f.voffs[j], f.tbs[j]) {
      IndexOfAt(f.bnames, j);
      assert FieldOK(map[], f, j, v);
    }
    assert v.content[aoff] != T_OBJECT_PATCH by { RawIsNoPatch(v.content, aoff); }
    ObjectDenoted(v, aoff, NObj(|f.names|, f.names, f.noffs, f.voffs), f.bnames, f.tbs);
  }

  lemma AddOKChanges(p: Progress, f: Fields, c: Bytes, v: View)
    requires v.Delta? && f.Valid() && AddOK(p, f, |f.bnames|, c, v)
    ensures ChangesOK(p.changes, f, v)
  {
    hide FieldOK, AddedOK, DeltaCacheOK;
    assert f.bnames[..|f.bnames|] == f.bnames;
  }

  lemma ObjectStartFacts(a: Bytes, aoff: int, ta: Tree, f: Fields, over: map<int, int>, cache: Cache, c: Bytes, v: View)
    requires ObjectStart(a, aoff, ta, f, v) && CompareStart(a, f, over, cache, c, v)
    ensures f.Valid() && v.Delta? && v.slen == |a| && DenotesAll(Snapshot(a), f.voffs, f.tas)
    ensures RawNode(a, aoff) == Some(NObj(|f.names|, f.names, f.noffs, f.voffs))
    ensures 0 <= aoff < |a| < |c| && |a| <= |v.content| < TWO_31 && a <= v.content && a <= c && Finished(v, a)
  {
  }

  /** The names and values of an object, up to the patch itself. */
  lemma {:induction false} DiffFieldsCorrect(a: Bytes, aoff: int, ta: Tree, f: Fields, over: map<int, int>, over': map<int, int>, cache: Cache,
                                             c: Bytes, v: View, p0: Progress, p: Progress)
    requires ObjectStart(a, aoff, ta, f, v) && CompareStart(a, f, over, cache, c, v)
    requires f.Valid() && DenotesAll(Snapshot(a), f.voffs, f.tas)
    requires p0 == CompareUpto(a, f, |f.names|, |c|, over, cache) && p == AddUpto(f, |f.bnames|, |c|, p0)
    requires c + p.out <= v.content && Settled(over', v, a, aoff, ta)
    requires forall k | k != aoff :: SameAt(over', p.over, k)
    ensures ChangesOK(p.changes, f, v) && DeltaCacheOK(p.cache, c + p.out, |a|)
    decreases f.tas, |f.names| + 1
  {
    hide *;
    FieldsSizes(f);
    var n := |f.names|;
    ObjectStartFacts(a, aoff, ta, f, over, cache, c, v);
    AddExtends(f, |f.bnames|, |c|, p0);
    AddFrame(f, |f.bnames|, |c|, p0);
    PrefixTwice(c, p0.out, p.out, v.content);
    ObjectSettled(a, aoff, ta, f, p0.over, over', v);
    CompareCorrect(a, f, n, over, cache, c, v);
    AddStart(p0, f, c, v);
    AddUptoCorrect(f, |f.bnames|, p0, c, v);
    AddOKFacts(p, f, |f.bnames|, c, v);
    AddOKChanges(p, f, c, v);
  }

  lemma PrefixTwice(c: Bytes, x: Bytes, y: Bytes, d: Bytes)
    requires x <= y && c + y <= d
    ensures c + x <= d
  {
    assert c + y == c + x + y[|x|..];
  }

  /** The object's own place was not overridden by the comparison of its values. */
  lemma OwnPlace(a: Bytes, aoff: int, ta: Tree, f: Fields, at: int, over: map<int, int>, cache: Cache, v: View)
    requires ObjectStart(a, aoff, ta, f, v) && DenotesAll(Snapshot(a), f.voffs, f.tas)
    requires CompareFrameOK(a, f, |f.names|, at, over, cache) && aoff !in over
    ensures aoff !in CompareUpto(a, f, |f.names|, at, over, cache).over
  {
    hide Inside, RawNode, CompareUpto, Denotes, OnlyContainers;
    assert !InsideAny(a, f.voffs, f.tas, |f.names|, aoff);
    assert SameAt(CompareUpto(a, f, |f.names|, at, over, cache).over, over, aoff);
  }

  lemma OwnSettled(a: Bytes, aoff: int, ta: Tree, f: Fields, over': map<int, int>, v: View)
    requires ObjectStart(a, aoff, ta, f, v) && Settled(over', v, a, aoff, ta)
    ensures SameAt(over', v.over, aoff)
  {
  }

  lemma {:induction false} DiffObjectCorrect(a: Bytes, aoff: int, ta: Tree, tb: Tree, f: Fields, over: map<int, int>, cache: Cache, c: Bytes, v: View)
    requires ObjectStart(a, aoff, ta, f, v) && CompareStart(a, f, over, cache, c, v) && aoff !in over
    requires f.Valid() && DenotesAll(Snapshot(a), f.voffs, f.tas) && tb == Obj(f.bnames, f.tbs)
    requires var r := DiffObject(a, aoff, f, |c|, over, cache);
             c + r.out <= v.content && Settled(r.over, v, a, aoff, ta)
    ensures DiffOK(DiffObject(a, aoff, f, |c|, over, cache), a, aoff, tb, c, v)
    decreases f.tas, |f.names| + 2
  {
    hide *;
    ObjectStartFacts(a, aoff, ta, f, over, cache, c, v);
    CompareStartFacts(a, f, over, cache, c, v);
    var r := DiffObject(a, aoff, f, |c|, over, cache);
    var p0, p, w := DiffObjectParts(a, aoff, f, |c|, over, cache);
    CompareFrame(a, f, |f.names|, |c|, over, cache);
    OwnPlace(a, aoff, ta, f, |c|, over, cache, v);
    AddFrame(f, |f.bnames|, |c|, p0);
    OwnSettled(a, aoff, ta, f, r.over, v);
    SameElsewhere(r.over, p.over, aoff, |c| + |p.out|);
    SameMeans(r.over, v.over, aoff);
    if p.changes == map[] {
      DiffFieldsCorrect(a, aoff, ta, f, over, r.over, cache, c, v, p0, p);
      UnchangedObject(a, aoff, f, v);
    } else {
      var c' := c + p.out;
      assert c + (p.out + w) == c' + w;
      DiffFieldsCorrect(a, aoff, ta, f, over, r.over, cache, c, v, p0, p);
      DeltaCacheExtends(p.cache, c', c' + w, |a|);
      PatchedObject(a, aoff, f, p.changes, c', w, v);
    }
    UnchangedOK(r, a, aoff, tb, c, v);
  }

  lemma SameElsewhere(over': map<int, int>, over: map<int, int>, aoff: int, at: int)
    requires over' == over || over' == over[aoff := at]
    ensures forall k | k != aoff :: SameAt(over', over, k)
  {
  }

  lemma SameMeans(m: map<int, int>, m': map<int, int>, k: int)
    requires SameAt(m, m', k)
    ensures k in m <==> k in m'
    ensures k in m ==> m[k] == m'[k]
  {
  }

  lemma PatchedObject(a: Bytes, aoff: int, f: Fields, changes: map<Bytes, Slot>, c: Bytes, w: Bytes, v: View)
    requires f.Valid() && v.Delta? && v.slen == |a| && 0 <= aoff < |a| && |f.bnames| < TWO_31
    requires ChangesOK(changes, f, v) && RawNode(a, aoff) == Some(NObj(|f.names|, f.names, f.noffs, f.voffs))
    requires a <= v.content && |v.content| < TWO_31 && |a| <= |v.content|
    requires w == PatchBytes(aoff, |f.bnames|, changes) && c + w <= v.content
    requires aoff in v.over && v.over[aoff] == |c|
    ensures Denotes(v, aoff, Obj(f.bnames, f.tbs))
  {
    hide *;
    OldNamesStand(a, aoff, f, v.content);
    ChangeNamesStand(changes, f, v);
    AtAppended(c, w, v.content);
    PatchIsRead(aoff, |f.bnames|, changes, v.content, |c|);
    PatchedObjectDenotes(f, changes, aoff, |c|, v);
  }

  // ---- Which comparison it is ----

  lemma DiffIsReplace(a: Bytes, aoff: int, ta: Tree, tb: Tree, sb: Stored, embed: bool, over: map<int, int>, cache: Cache, c: Bytes, v: View)
    requires Doc(sb) == tb && Proper(tb) && Started(a, aoff, ta, over, cache, c, v) && Kind(ta) != Kind(tb)
    ensures Finished(v, a) && |a| < |c| && DeltaCacheOK(cache, c, |a|)
    ensures Diff(a, aoff, ta, tb, sb, embed, |c|, over, cache) == Replace(aoff, tb, |c|, embed, over, cache)
  {
    hide Denotes, Apart, Fresh, DeltaCacheOK, OnlyContainers, Replace, Proper;
  }

  lemma DiffIsLeaf(a: Bytes, aoff: int, ta: Tree, tb: Tree, sb: Stored, embed: bool, over: map<int, int>, cache: Cache, c: Bytes, v: View)
    requires Doc(sb) == tb && Proper(tb) && Started(a, aoff, ta, over, cache, c, v) && Kind(ta) == Kind(tb) && ta.Leaf?
    ensures tb.Leaf? && ta == Leaf(ta.s) && tb == Leaf(tb.s) && Tag(ta.s) == Tag(tb.s)
    ensures Diff(a, aoff, ta, tb, sb, embed, |c|, over, cache) == DiffLeaf(aoff, ta.s, tb.s, |c|, over, cache)
  {
    hide Denotes, Apart, Fresh, DeltaCacheOK, OnlyContainers, DiffLeaf, Proper;
  }

  lemma DiffIsArray(a: Bytes, aoff: int, ta: Tree, tb: Tree, sb: Stored, embed: bool, over: map<int, int>, cache: Cache, c: Bytes, v: View)
    requires Doc(sb) == tb && Proper(tb) && Started(a, aoff, ta, over, cache, c, v) && Kind(ta) == Kind(tb) && ta.Arr?
    requires !Diff(a, aoff, ta, tb, sb, embed, |c|, over, cache).changed ==>
               Settled(Diff(a, aoff, ta, tb, sb, embed, |c|, over, cache).over, v, a, aoff, ta)
    ensures tb.Arr? && sb.SArr? && tb == Arr(Docs(sb.elems)) && RawNode(a, aoff).Some? && RawNode(a, aoff).value.NArr?
    ensures var aoffs := RawNode(a, aoff).value.offs;
            && DenotesAll(Snapshot(a), aoffs, ta.elems)
            && var d := DiffArray(aoff, aoffs, StoredAll(Snapshot(a), aoffs, ta.elems), sb.elems, |c|, over, cache);
               Diff(a, aoff, ta, tb, sb, embed, |c|, over, cache) == d && Settled(d.over, v, a, aoff, ta)
  {
    KidsDenoted(Snapshot(a), aoff, ta);
    hide Apart, Fresh, DeltaCacheOK, OnlyContainers, Proper, Settled, SameArray, PickUpto, RawNode, StoredAll, Docs;
  }

  lemma DiffIsObject(a: Bytes, aoff: int, ta: Tree, tb: Tree, sb: Stored, embed: bool, over: map<int, int>, cache: Cache, c: Bytes, v: View)
    requires Doc(sb) == tb && Proper(tb) && Started(a, aoff, ta, over, cache, c, v) && Kind(ta) == Kind(tb) && !ta.Leaf? && !ta.Arr?
    requires !Diff(a, aoff, ta, tb, sb, embed, |c|, over, cache).changed ==>
               Settled(Diff(a, aoff, ta, tb, sb, embed, |c|, over, cache).over, v, a, aoff, ta)
    ensures ta.Obj? && tb.Obj? && NodeAt(Snapshot(a), aoff).Some? && NodeAt(Snapshot(a), aoff).value.NObj?
    ensures var f := FieldsOf(NodeAt(Snapshot(a), aoff).value, ta, tb, sb);
            && CompareStart(a, f, over, cache, c, v) && ObjectStart(a, aoff, ta, f, v) && aoff !in over
            && f.Valid() && DenotesAll(Snapshot(a), f.voffs, f.tas) && tb == Obj(f.bnames, f.tbs) && f.tas == ta.vals
            && Diff(a, aoff, ta, tb, sb, embed, |c|, over, cache) == DiffObject(a, aoff, f, |c|, over, cache)
            && Settled(DiffObject(a, aoff, f, |c|, over, cache).over, v, a, aoff, ta)
  {
    NotOverridden(a, aoff, ta, over);
    ObjectFields(a, aoff, ta, tb, sb);
    ObjectPlace(a, aoff, ta);
    FreshKids(over, a, aoff, ta);
    hide Apart, Fresh, DeltaCacheOK, OnlyContainers, Settled, RawNode, Inside, Disjoint, CompareUpto, AddUpto;
  }

  // ---- One comparison ----

  /** Every comparison is right: a reported change is the offset of the new value, and
      otherwise the old place reads as the new value once the delta is finished. */
  lemma {:induction false} DiffCorrect(a: Bytes, aoff: int, ta: Tree, tb: Tree, sb: Stored, embed: bool, over: map<int, int>, cache: Cache, c: Bytes, v: View)
    requires Doc(sb) == tb && Proper(tb) && Started(a, aoff, ta, over, cache, c, v)
    requires var r := Diff(a, aoff, ta, tb, sb, embed, |c|, over, cache);
             c + r.out <= v.content && (!r.changed ==> Settled(r.over, v, a, aoff, ta))
    ensures DiffOK(Diff(a, aoff, ta, tb, sb, embed, |c|, over, cache), a, aoff, tb, c, v)
    decreases ta
  {
    hide *;
    if Kind(ta) != Kind(tb) {
      DiffIsReplace(a, aoff, ta, tb, sb, embed, over, cache, c, v);
      ReplaceCorrect(a, aoff, tb, embed, over, cache, c, v);
    } else if ta.Leaf? {
      DiffIsLeaf(a, aoff, ta, tb, sb, embed, over, cache, c, v);
      DiffLeafCorrect(a, aoff, ta.s, tb.s, over, cache, c, v);
    } else if ta.Arr? {
      DiffIsArray(a, aoff, ta, tb, sb, embed, over, cache, c, v);
      DiffArrayCorrect(a, aoff, ta, sb.elems, over, cache, c, v);
    } else {
      DiffIsObject(a, aoff, ta, tb, sb, embed, over, cache, c, v);
      var f := FieldsOf(NodeAt(Snapshot(a), aoff).value, ta, tb, sb);
      DiffObjectCorrect(a, aoff, ta, tb, f, over, cache, c, v);
    }
  }
}
