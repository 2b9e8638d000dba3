/** When a delta overrides nothing: the documents are equal, their arrays are stored alike,
    and no array of the old one holds, at different places, elements that are stored alike. */
module DeltaEmpty {
  import opened ByteCodec
  import opened Names
  import opened Trees
  import opened Reader
  import opened StoredShapes
  import opened SnapshotFormat
  import opened DeltaFormat
  import opened DeltaFrame
  import opened DeltaProof
  import opened DeltaFiles

  /** Elements that are stored alike share their place. */
  ghost predicate NoRepeats(offs: seq<int>, ss: seq<Stored>)
    requires |offs| == |ss|
  {
    forall i, j | 0 <= i < j < |ss| && ss[i] == ss[j] :: offs[i] == offs[j]
  }

  /** Every array that is a field, at any depth, is stored as in the new version, and none
      of its elements is stored like another one somewhere else. */
  ghost predicate Settles(a: Bytes, aoff: int, t: Tree, sb: Stored)
    requires Denotes(Snapshot(a), aoff, t) && Doc(sb) == t
    decreases t
  {
    KidsDenoted(Snapshot(a), aoff, t);
    var slots := NodeAt(Snapshot(a), aoff).value.Slots();
    match t
    case Leaf(_) => true
    case Arr(elems) =>
      var sas := StoredAll(Snapshot(a), slots, elems);
      sas == sb.elems && NoRepeats(slots, sas)
    case Obj(_, vals) =>
      FieldDocs(sb);
      forall i | 0 <= i < |vals| :: Settles(a, slots[i], vals[i], sb.vals[i])
  }

  lemma {:induction false} FirstEqualFinds(ss: seq<Stored>, i: nat)
    requires i < |ss|
    ensures 0 <= FirstEqual(ss, ss[i]) <= i
  {
    var n := |ss| - 1;
    if i < n {
      assert ss[..n][i] == ss[i];
      FirstEqualFinds(ss[..n], i);
    }
  }

  /** When an array is reported unchanged. */
  lemma SameArrayExactly(v: View, offs: seq<int>, ts: seq<Tree>, sbs: seq<Stored>)
    requires DenotesAll(v, offs, ts)
    ensures var sas := StoredAll(v, offs, ts);
            SameArray(offs, sas, sbs) <==> sas == sbs && NoRepeats(offs, sas)
  {
    hide Denotes, StoredOf, StoredAll, FirstEqual, Docs;
    var sas := StoredAll(v, offs, ts);
    if SameArray(offs, sas, sbs) {
      SameArrayIsEqual(v, offs, ts, sbs);
    }
    forall i | 0 <= i < |sas| ensures 0 <= FirstEqual(sas, sas[i]) <= i && sas[FirstEqual(sas, sas[i])] == sas[i] {
      FirstEqualFinds(sas, i);
    }
  }

  /** Comparing a document with itself: overrides are only added, and some are exactly
      when it does not settle. */
  ghost predicate SelfDiff(d: Diffed, over: map<int, int>, settles: bool) {
    && !d.changed && over.Keys <= d.over.Keys
    && (settles ==> d.over == over) && (!settles ==> d.over != map[])
  }

  lemma {:induction false} DiffSelf(a: Bytes, aoff: int, t: Tree, sb: Stored, embed: bool, at: int, over: map<int, int>, cache: Cache)
    requires Doc(sb) == t && Proper(t) && Denotes(Snapshot(a), aoff, t)
    ensures SelfDiff(Diff(a, aoff, t, t, sb, embed, at, over, cache), over, Settles(a, aoff, t, sb))
    decreases t, 1
  {
    hide Denotes, Proper, Diff, Settles, SelfDiff;
    if t.Obj? {
      ObjectSelf(a, aoff, t, sb, embed, at, over, cache);
    } else {
      FlatSelf(a, aoff, t, sb, embed, at, over, cache);
    }
  }

  lemma FlatSelf(a: Bytes, aoff: int, t: Tree, sb: Stored, embed: bool, at: int, over: map<int, int>, cache: Cache)
    requires Doc(sb) == t && Proper(t) && Denotes(Snapshot(a), aoff, t) && !t.Obj?
    ensures SelfDiff(Diff(a, aoff, t, t, sb, embed, at, over, cache), over, Settles(a, aoff, t, sb))
  {
    hide Proper, SameArray, PickUpto, Words, PutVarint, NoRepeats, StoredAll, Docs;
    KidsDenoted(Snapshot(a), aoff, t);
    if t.Arr? {
      SameArrayExactly(Snapshot(a), NodeAt(Snapshot(a), aoff).value.Slots(), t.elems, sb.elems);
      assert aoff in over[aoff := at];
    }
  }

  /** Nothing has been reported so far, and the overrides tell whether all settled. */
  ghost predicate SelfProgress(p: Progress, over: map<int, int>, settled: bool) {
    && p.changes == map[] && over.Keys <= p.over.Keys
    && (settled ==> p.over == over) && (!settled ==> p.over != map[])
  }

  ghost predicate SettledUpto(a: Bytes, f: Fields, n: nat)
    requires n <= |f.tas| && DenotesAll(Snapshot(a), f.voffs, f.tas) && Docs(f.sbs) == f.tas
  {
    forall i | 0 <= i < n :: Settles(a, f.voffs[i], f.tas[i], f.sbs[i])
  }

  lemma SettledOneMore(a: Bytes, f: Fields, n: nat)
    requires n < |f.tas| && DenotesAll(Snapshot(a), f.voffs, f.tas) && Docs(f.sbs) == f.tas
    ensures Doc(f.sbs[n]) == f.tas[n]
    ensures SettledUpto(a, f, n + 1) <==> SettledUpto(a, f, n) && Settles(a, f.voffs[n], f.tas[n], f.sbs[n])
    ensures SettledUpto(a, f, 0)
  {
    hide Settles, Denotes;
  }

  lemma KeptSelf(f: Fields, i: nat, p: Progress, d: Diffed, over: map<int, int>, before: bool, now: bool)
    requires i < |f.names| == |f.noffs| == |f.voffs| && SelfProgress(p, over, before) && SelfDiff(d, p.over, now)
    ensures SelfProgress(KeepName(f, i, p, d), over, before && now)
  {
    if d.over == map[] {
      assert p.over.Keys == {};
      assert p.over == map[];
    }
  }

  lemma SelfBegins(a: Bytes, f: Fields, at: int, over: map<int, int>, cache: Cache)
    requires f.Valid() && DenotesAll(Snapshot(a), f.voffs, f.tas)
    ensures SelfProgress(CompareUpto(a, f, 0, at, over, cache), over, true)
  {
    hide Denotes, Proper;
  }

  lemma {:induction false} CompareSelf(a: Bytes, f: Fields, n: nat, at: int, over: map<int, int>, cache: Cache)
    requires f.Valid() && DenotesAll(Snapshot(a), f.voffs, f.tas) && n <= |f.names| && f.bnames == f.names && f.tbs == f.tas
    requires Ascending(f.names) && forall i | 0 <= i < |f.tas| :: Proper(f.tas[i])
    ensures n <= |f.tas| && Docs(f.sbs) == f.tas && SelfProgress(CompareUpto(a, f, n, at, over, cache), over, SettledUpto(a, f, n))
    decreases f.tas, n
  {
    hide Denotes, DenotesAll, Diff, Settles, SelfDiff, SelfProgress, SettledUpto, Ascending, Proper, CompareUpto, KeepName, RemoveName;
    FieldsSizes(f);
    if n == 0 {
      SelfBegins(a, f, at, over, cache);
      NoneSettled(a, f);
    } else {
      CompareSelf(a, f, n - 1, at, over, cache);
      CompareStep(a, f, n - 1, at, over, cache);
      IndexOfAt(f.names, n - 1);
      FieldDenoted(a, f, n - 1);
      var p := CompareUpto(a, f, n - 1, at, over, cache);
      DiffSelf(a, f.voffs[n - 1], f.tas[n - 1], f.sbs[n - 1], true, at + |p.out|, p.over, p.cache);
      var d := Diff(a, f.voffs[n - 1], f.tas[n - 1], f.tas[n - 1], f.sbs[n - 1], true, at + |p.out|, p.over, p.cache);
      KeptSelf(f, n - 1, p, d, over, SettledUpto(a, f, n - 1), Settles(a, f.voffs[n - 1], f.tas[n - 1], f.sbs[n - 1]));
      SettledOneMore(a, f, n - 1);
    }
  }

  lemma NoneSettled(a: Bytes, f: Fields)
    requires DenotesAll(Snapshot(a), f.voffs, f.tas) && Docs(f.sbs) == f.tas
    ensures SettledUpto(a, f, 0)
  {
    hide Settles, Denotes;
  }

  lemma FieldDenoted(a: Bytes, f: Fields, i: nat)
    requires DenotesAll(Snapshot(a), f.voffs, f.tas) && Docs(f.sbs) == f.tas && i < |f.tas|
    ensures |f.voffs| == |f.sbs| == |f.tas| && Denotes(Snapshot(a), f.voffs[i], f.tas[i]) && Doc(f.sbs[i]) == f.tas[i]
  {
    hide Denotes;
  }

  lemma {:induction false} AddsNothing(f: Fields, n: nat, at: int, p: Progress)
    requires |f.bnames| == |f.tbs| && n <= |f.bnames| && f.bnames == f.names
    ensures AddUpto(f, n, at, p) == p
  {
    if n > 0 {
      AddsNothing(f, n - 1, at, p);
    }
  }

  lemma {:induction false} ObjectSelf(a: Bytes, aoff: int, t: Tree, sb: Stored, embed: bool, at: int, over: map<int, int>, cache: Cache)
    requires Doc(sb) == t && Proper(t) && Denotes(Snapshot(a), aoff, t) && t.Obj?
    ensures SelfDiff(Diff(a, aoff, t, t, sb, embed, at, over, cache), over, Settles(a, aoff, t, sb))
    decreases t, 0
  {
    hide Denotes, DenotesAll, Diff, Settles, SettledUpto, Ascending, Proper, CompareUpto, AddUpto, DiffObject, PatchBytes;
    ObjectFields(a, aoff, t, t, sb);
    var f := FieldsOf(NodeAt(Snapshot(a), aoff).value, t, t, sb);
    ProperFields(t);
    DiffIsDiffObject(a, aoff, t, t, sb, embed, at, over, cache);
    CompareSelf(a, f, |f.names|, at, over, cache);
    FieldsSizes(f);
    var p := CompareUpto(a, f, |f.names|, at, over, cache);
    AddsNothing(f, |f.bnames|, at, p);
    var p0, p1, w := DiffObjectParts(a, aoff, f, at, over, cache);
    SettlesFields(a, aoff, t, sb);
  }

  lemma ProperFields(t: Tree)
    requires Proper(t) && t.Obj?
    ensures Ascending(t.names) && |t.names| == |t.vals| && forall i | 0 <= i < |t.vals| :: Proper(t.vals[i])
  {
  }

  lemma SettlesFields(a: Bytes, aoff: int, t: Tree, sb: Stored)
    requires Doc(sb) == t && Proper(t) && Denotes(Snapshot(a), aoff, t) && t.Obj?
    ensures NodeAt(Snapshot(a), aoff).value.NObj?
    ensures var f := FieldsOf(NodeAt(Snapshot(a), aoff).value, t, t, sb);
            && DenotesAll(Snapshot(a), f.voffs, f.tas) && |f.names| == |f.tas| && Docs(f.sbs) == f.tas
            && (Settles(a, aoff, t, sb) <==> SettledUpto(a, f, |f.names|))
  {
    hide Proper, Ascending;
    ProperFields(t);
    KidsDenoted(Snapshot(a), aoff, t);
  }

  /** A delta overrides nothing exactly when the documents are equal and the old one
      settles: equal documents with repeated array elements still give overrides, and so do
      arrays whose objects are stored otherwise. */
  lemma EmptyExactly(a: Bytes, ta: Tree, tb: Tree, sb: Stored)
    requires Doc(sb) == tb && Comparable(a, ta, tb) && |a + DeltaFile(a, ta, tb, sb)| < TWO_31
    ensures Denotes(Snapshot(a), 0, ta) && Proper(ta) && Proper(tb)
    ensures RootDiff(a, ta, tb, sb).over == map[] <==> ta == tb && Settles(a, 0, ta, sb)
  {
    hide *;
    ComparableFacts(a, ta, tb);
    if RootDiff(a, ta, tb, sb).over == map[] {
      NoOverridesMeansEqual(a, ta, tb, sb);
    }
    if ta == tb {
      SelfDelta(a, ta, sb);
    }
  }

  /** Compared with itself, however it is stored the second time, a document is overridden
      nowhere exactly when it settles. */
  lemma SelfDelta(a: Bytes, t: Tree, sb: Stored)
    requires Doc(sb) == t && Proper(t) && Denotes(Snapshot(a), 0, t)
    ensures RootDiff(a, t, t, sb).over == map[] <==> Settles(a, 0, t, sb)
  {
    hide *;
    RootIsDiff(a, t, t, sb);
    DiffSelf(a, 0, t, sb, false, |a| + 4, map[], EMPTY);
    SelfMeans(RootDiff(a, t, t, sb), Settles(a, 0, t, sb));
  }

  lemma RootIsDiff(a: Bytes, ta: Tree, tb: Tree, sb: Stored)
    requires Doc(sb) == tb && Proper(ta) && Proper(tb) && Denotes(Snapshot(a), 0, ta)
    ensures RootDiff(a, ta, tb, sb) == Diff(a, 0, ta, tb, sb, false, |a| + 4, map[], EMPTY)
  {
    hide Diff, Denotes, Proper;
  }

  lemma SelfMeans(d: Diffed, settles: bool)
    requires SelfDiff(d, map[], settles)
    ensures d.over == map[] <==> settles
  {
  }

  /** An array with two elements that are stored alike at different places does not settle. */
  lemma RepeatsDoNotSettle(a: Bytes, aoff: int, elems: seq<Tree>, sb: Stored, i: nat, j: nat)
    requires Denotes(Snapshot(a), aoff, Arr(elems)) && Doc(sb) == Arr(elems) && NodeAt(Snapshot(a), aoff).Some?
    requires var offs := NodeAt(Snapshot(a), aoff).value.Slots();
             && DenotesAll(Snapshot(a), offs, elems) && i < j < |elems| && offs[i] != offs[j]
             && StoredOf(Snapshot(a), offs[i], elems[i]) == StoredOf(Snapshot(a), offs[j], elems[j])
    ensures !Settles(a, aoff, Arr(elems), sb)
  {
    hide Denotes, StoredOf, StoredAll;
    var offs := NodeAt(Snapshot(a), aoff).value.Slots();
    StoredAt(Snapshot(a), offs, elems, i);
    StoredAt(Snapshot(a), offs, elems, j);
  }
}
