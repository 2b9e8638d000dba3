/** Which elements of a written array are taken over from the old one: not every element
    that is equal, as a full object is not taken for a thin one. */
module ArrayReuse {
  import opened ByteCodec
  import opened Names
  import opened Trees
  import opened Reader
  import opened StoredShapes
  import opened Containers
  import opened SnapshotFormat
  import opened WrittenShapes
  import opened DeltaFormat
  import opened DeltaFrame
  import opened DeltaProof
  import opened DeltaFiles
  import opened DeltaEmpty
  import opened SettledSnapshots

  lemma {:induction false} FirstEqualExactly(ss: seq<Stored>, s: Stored)
    ensures FirstEqual(ss, s) >= 0 <==> exists i :: 0 <= i < |ss| && ss[i] == s
  {
    if i :| 0 <= i < |ss| && ss[i] == s {
      FirstEqualFinds(ss, i);
    }
  }

  /** The element `us[j]` of a written array is taken over from the written array `ts` exactly
      when an equal element stands there, and each list of names in it has occurred earlier
      in both documents or in neither. */
  lemma ReusedExactly(ts: seq<Tree>, known: set<seq<Bytes>>, us: seq<Tree>, known': set<seq<Bytes>>, j: nat)
    requires j < |us|
    ensures FirstEqual(Shapes(ts, |ts|, known), Shapes(us, |us|, known')[j]) >= 0 <==>
            exists i :: 0 <= i < |ts| && ts[i] == us[j] && SameBefore(us[j], AfterUpto(ts, i, known), AfterUpto(us, j, known'))
  {
    hide Shape, Shapes, AfterUpto, SameBefore, FirstEqual, Doc;
    var ss, s := Shapes(ts, |ts|, known), Shapes(us, |us|, known')[j];
    FirstEqualExactly(ss, s);
    ShapesAt(us, |us|, known', j);
    ShapeDoc(us[j], AfterUpto(us, j, known'));
    forall i | 0 <= i < |ts|
      ensures ss[i] == s <==> ts[i] == us[j] && SameBefore(us[j], AfterUpto(ts, i, known), AfterUpto(us, j, known'))
    {
      ShapesAt(ts, |ts|, known, i);
      ShapeDoc(ts[i], AfterUpto(ts, i, known));
      SameShape(us[j], AfterUpto(ts, i, known), AfterUpto(us, j, known'));
    }
  }

  /** An array that has not changed is overridden nevertheless, exactly when it is stored
      otherwise in the new version or has elements that are stored alike. */
  lemma RewrittenExactly(a: Bytes, aoff: int, t: Tree, sb: Stored, embed: bool, at: int, over: map<int, int>, cache: Cache)
    requires t.Arr? && Doc(sb) == t && Proper(t) && Denotes(Snapshot(a), aoff, t) && aoff !in over
    ensures var d := Diff(a, aoff, t, t, sb, embed, at, over, cache);
            && !d.changed
            && (aoff in d.over <==> StoredOf(Snapshot(a), aoff, t) != sb ||
                                    !NoRepeats(NodeAt(Snapshot(a), aoff).value.Slots(), StoredAllAt(a, aoff, t)))
  {
    StoredParts(Snapshot(a), aoff, t);
    hide Proper, SameArray, PickUpto, Words, PutVarint, NoRepeats, StoredAll, StoredOf, Docs;
    var offs := NodeAt(Snapshot(a), aoff).value.Slots();
    SameArrayExactly(Snapshot(a), offs, t.elems, sb.elems);
  }

  /** How the elements below an offset are stored. */
  ghost function StoredAllAt(a: Bytes, aoff: int, t: Tree): (r: seq<Stored>)
    requires Denotes(Snapshot(a), aoff, t)
    ensures |r| == |NodeAt(Snapshot(a), aoff).value.Slots()|
  {
    KidsDenoted(Snapshot(a), aoff, t);
    StoredAll(Snapshot(a), NodeAt(Snapshot(a), aoff).value.Slots(), t.Kids())
  }

  /** What is taken over is not copied: in a changed array, the offset of an element that the
      old array stores alike is the old one. */
  lemma {:induction false} PicksReuse(aoffs: seq<int>, sas: seq<Stored>, sbs: seq<Stored>, n: nat, at: int, cache: Cache, i: nat)
    requires |aoffs| == |sas| && i < n <= |sbs|
    ensures (exists j :: 0 <= j < |sas| && sas[j] == sbs[i]) ==>
              exists j :: 0 <= j < |sas| && sas[j] == sbs[i] && PickUpto(aoffs, sas, sbs, n, at, cache).offs[i] == aoffs[j]
    ensures (forall k | 0 <= k < n :: exists j :: 0 <= j < |sas| && sas[j] == sbs[k]) ==>
              PickUpto(aoffs, sas, sbs, n, at, cache).out == []
  {
    hide Doc, FirstEqual;
    FirstEqualExactly(sas, sbs[n - 1]);
    if n > 1 {
      PicksReuse(aoffs, sas, sbs, n - 1, at, cache, if i < n - 1 then i else 0);
    }
  }

  // ---- Documents in a few bytes ----

  ghost predicate Small(t: Tree) {
    match t
    case Leaf(Num(digits)) => |digits| < 64
    case Leaf(s) => Embeds(s)
    case Arr(elems) => |elems| < 64 && forall i | 0 <= i < |elems| :: Small(elems[i])
    case Obj(names, vals) =>
      && |names| == |vals| < 64 && (forall i | 0 <= i < |names| :: |names[i]| < 64)
      && forall i | 0 <= i < |vals| :: Small(vals[i])
  }

  function Room(t: Tree): nat
    decreases t
  {
    match t
    case Leaf(_) => 65
    case Arr(elems) => 258 + RoomUpto(elems, |elems|)
    case Obj(_, vals) => 5000 + RoomUpto(vals, |vals|)
  }

  function RoomUpto(ts: seq<Tree>, n: nat): nat
    requires n <= |ts|
    decreases ts, n
  {
    if n == 0 then 0 else RoomUpto(ts, n - 1) + Room(ts[n - 1])
  }

  lemma OneByte(n: nat)
    requires n < 64
    ensures |PutVarint(n)| == 1
  {
  }

  lemma {:induction false} NameRoom(names: seq<Bytes>, n: nat)
    requires n <= |names| && forall i | 0 <= i < n :: |names[i]| < 64
    ensures |NameBytes(names, n)| <= 64 * n
  {
    hide PutVarint;
    if n > 0 {
      NameRoom(names, n - 1);
      OneByte(|names[n - 1]|);
    }
  }

  lemma {:induction false} WriteRoom(t: Tree, base: int, len: nat, cache: Cache)
    requires Small(t)
    ensures |Write(t, base, len, cache).out| <= Room(t)
    decreases t, 1, 0
  {
    hide WriteUpto, PutVarint, Words, Be32, NameBytes, NameOffsets, RoomUpto;
    match t
    case Leaf(s) =>
      if s.Num? { OneByte(|s.digits|); }
    case Arr(elems) =>
      OneByte(|elems|);
      UptoRoom(elems, |elems|, base, len + 1 + |PutVarint(|elems|)| + 4 * |elems|, cache);
    case Obj(names, vals) =>
      OneByte(|names|);
      NameRoom(names, |names|);
      if names in cache.types && cache.types[names] != base + len {
        UptoRoom(vals, |vals|, base, len + 5 + 4 * |vals|, cache);
      } else {
        var start := 1 + |PutVarint(|names|)| + 4 * |names| + 4 * |vals|;
        UptoRoom(vals, |vals|, base, len + start + |NameBytes(names, |names|)|, cache.(types := cache.types[names := base + len]));
      }
  }

  lemma {:induction false} UptoRoom(ts: seq<Tree>, n: nat, base: int, len: nat, cache: Cache)
    requires n <= |ts| && forall i | 0 <= i < n :: Small(ts[i])
    ensures |WriteUpto(ts, n, base, len, cache).out| <= RoomUpto(ts, n)
    decreases ts, 0, n
  {
    hide Write, WriteUpto, Small, Room;
    if n == 0 {
      UptoNone(ts, base, len, cache);
    } else {
      UptoRoom(ts, n - 1, base, len, cache);
      var before := WriteUpto(ts, n - 1, base, len, cache);
      WriteUptoStep(ts, n, base, len, cache);
      WriteRoom(ts[n - 1], base, len + |before.out|, before.cache);
    }
  }

  /** An object with one field. */
  function Field(name: Byte, val: Tree): Tree { Obj([[name]], [val]) }

  /** A small document can be written, and represents itself. */
  lemma SmallSnap(t: Tree)
    requires Small(t) && Room(t) < TWO_31
    ensures |Snap(t)| < TWO_31 && Repr(t) == t
  {
    hide Write, Small, Room, Repr;
    WriteRoom(t, 0, 0, EMPTY);
    SmallRepr(t);
  }

  lemma {:induction false} SmallRepr(t: Tree)
    requires Small(t)
    ensures Repr(t) == t
    decreases t
  {
    match t
    case Leaf(_) =>
    case Arr(elems) =>
      forall i | 0 <= i < |elems| ensures Repr(t).elems[i] == elems[i] { SmallRepr(elems[i]); }
    case Obj(_, vals) =>
      forall i | 0 <= i < |vals| ensures Repr(t).vals[i] == vals[i] { SmallRepr(vals[i]); }
  }

  ghost predicate Fits(t: Tree, room: nat) { Small(t) && Proper(t) && Room(t) <= room }

  lemma SumRoom(ts: seq<Tree>, room: nat)
    requires |ts| <= 2 && forall i | 0 <= i < |ts| :: Room(ts[i]) <= room
    ensures RoomUpto(ts, |ts|) <= 2 * room
  {
    hide Room;
    if |ts| > 0 { assert RoomUpto(ts, 1) == RoomUpto(ts, 0) + Room(ts[0]); }
  }

  lemma ArrayFits(ts: seq<Tree>, room: nat)
    requires |ts| <= 2 && forall i | 0 <= i < |ts| :: Fits(ts[i], room)
    ensures Fits(Arr(ts), 258 + 2 * room)
  {
    hide RoomUpto;
    SumRoom(ts, room);
  }

  lemma ObjectFits(names: seq<Bytes>, vals: seq<Tree>, room: nat)
    requires |names| == |vals| <= 2 && (forall i | 0 <= i < |vals| :: |names[i]| == 1 && Fits(vals[i], room)) && Ascending(names)
    ensures Fits(Obj(names, vals), 5000 + 2 * room)
  {
    hide RoomUpto, Ascending;
    SumRoom(vals, room);
  }

  lemma LeafFits(s: Scalar)
    requires s == Null || s == Num([49]) || s == Num([53])
    ensures Fits(Leaf(s), 65)
  {
  }

  lemma FittingSnap(t: Tree, room: nat)
    requires Fits(t, room) && room < TWO_31
    ensures |Snap(t)| < TWO_31 && Repr(t) == t && Proper(t)
  {
    hide Snap, Repr, Room, Proper, Small;
    SmallSnap(t);
  }

  // ---- An unchanged document with a delta, and one without ----

  /** {"a": [[], []]} */
  function Twins(): Tree { Field(97, Arr([Arr([]), Arr([])])) }

  /** {"a": [{"x": null}, {"x": null}]}: the second object is thin, the first is not. */
  function ThinTwins(): Tree { Field(97, Arr([Field(120, Leaf(Null)), Field(120, Leaf(Null))])) }

  lemma TwinsHaveADelta()
    ensures Proper(Twins()) && BlobFree(Twins()) && |Snap(Twins())| < TWO_31
    ensures Comparable(Snap(Twins()), Twins(), Twins()) && Denotes(Snapshot(Snap(Twins())), 0, Twins())
    ensures var sb := StoredOf(Snapshot(Snap(Twins())), 0, Twins());
            Doc(sb) == Twins() && RootDiff(Snap(Twins()), Twins(), Twins(), sb).over != map[]
  {
    hide Snap, RootDiff, Denotes, Comparable, Doc, StoredOf;
    TwinsFacts();
    SelfDeltaEmpty(Twins());
  }

  lemma TwinsFacts()
    ensures Proper(Twins()) && BlobFree(Twins()) && |Snap(Twins())| < TWO_31 && Repr(Twins()) == Twins()
    ensures !NoTwins(Twins(), {})
  {
    hide Snap, Repr, AfterUpto, Fits;
    var elems := Twins().vals[0].elems;
    var known := AfterUpto(Twins().vals, 0, {[[97]]});
    assert elems[0] == elems[1] && Known(elems[0], AfterUpto(elems, 0, known));
    ArrayFits([], 0);
    ArrayFits([Arr([]), Arr([])], 258);
    ObjectFits([[97]], [Arr([Arr([]), Arr([])])], 774);
    FittingSnap(Twins(), 6548);
  }

  lemma ThinTwinsHaveNone()
    ensures Proper(ThinTwins()) && BlobFree(ThinTwins()) && |Snap(ThinTwins())| < TWO_31
    ensures Comparable(Snap(ThinTwins()), ThinTwins(), ThinTwins()) && Denotes(Snapshot(Snap(ThinTwins())), 0, ThinTwins())
    ensures var sb := StoredOf(Snapshot(Snap(ThinTwins())), 0, ThinTwins());
            Doc(sb) == ThinTwins() && RootDiff(Snap(ThinTwins()), ThinTwins(), ThinTwins(), sb).over == map[]
  {
    hide Snap, RootDiff, Denotes, Comparable, Doc, StoredOf;
    ThinTwinsFacts();
    SelfDeltaEmpty(ThinTwins());
  }

  lemma ThinTwinsFacts()
    ensures Proper(ThinTwins()) && BlobFree(ThinTwins()) && |Snap(ThinTwins())| < TWO_31 && Repr(ThinTwins()) == ThinTwins()
    ensures NoTwins(ThinTwins(), {})
  {
    hide Snap, Repr, Proper;
    LeafFits(Null);
    ObjectFits([[120]], [Leaf(Null)], 65);
    ArrayFits([Field(120, Leaf(Null)), Field(120, Leaf(Null))], 6000);
    ObjectFits([[97]], [Arr([Field(120, Leaf(Null)), Field(120, Leaf(Null))])], 13000);
    FittingSnap(ThinTwins(), 40000);
  }

  // ---- An array that is the same in both versions, and rewritten ----

  /** [{"x": 1}] */
  function Ones(): Tree { Arr([Field(120, Leaf(Num([49])))]) }

  /** {"p": [{"x": 1}]}: the element is full. */
  function Before(): Tree { Field(112, Ones()) }

  /** {"o": {"x": 5}, "p": [{"x": 1}]}: the element is thin. */
  function Later(): Tree { Obj([[111], [112]], [Field(120, Leaf(Num([53]))), Ones()]) }

  lemma ExampleFits()
    ensures |Snap(Before())| < TWO_31 && Repr(Before()) == Before() && Proper(Before()) && Proper(Ones())
    ensures |Snap(Later())| < TWO_31 && Repr(Later()) == Later() && Proper(Later())
  {
    hide Snap, Repr, Proper;
    LeafFits(Num([49]));
    LeafFits(Num([53]));
    ObjectFits([[120]], [Leaf(Num([49]))], 65);
    ObjectFits([[120]], [Leaf(Num([53]))], 65);
    ArrayFits([Field(120, Leaf(Num([49])))], 6000);
    FittingSnap(Ones(), 13000);
    ObjectFits([[112]], [Ones()], 13000);
    TwoNames();
    ObjectFits([[111], [112]], [Field(120, Leaf(Num([53]))), Ones()], 13000);
    FittingSnap(Before(), 40000);
    FittingSnap(Later(), 40000);
  }

  lemma TwoNames()
    ensures Ascending([[111], [112]])
  {
  }

  /** The element's names have not been written before in the old version, in the new one
      they have. */
  lemma OnesDiffer()
    ensures var known, known' := {[[112]]}, AfterUpto(Later().vals, 1, {[[111], [112]]});
            Shape(Ones(), known) != Shape(Ones(), known')
  {
    hide Shape, AfterUpto, After, Shapes;
    var known, known' := {[[112]]}, AfterUpto(Later().vals, 1, {[[111], [112]]});
    var names, own: seq<Bytes> := [[120]], [[112]];
    assert Within(Later().vals[0], names);
    AfterUptoHas(Later().vals, 1, {[[111], [112]]}, names);
    assert Within(Ones().elems[0], names);
    assert Within(Ones(), names);
    assert names[0][0] != own[0][0];
    SameShape(Ones(), known, known');
  }

  lemma ExampleShapes()
    ensures Before().Obj? && Later().Obj? && |Before().vals| == 1 && |Later().vals| == 2 && Before().vals[0] == Later().vals[1]
    ensures Comparable(Snap(Before()), Before(), Later()) && Denotes(Snapshot(Snap(Later())), 0, Later())
    ensures Proper(Before()) && Proper(Later()) && Denotes(Snapshot(Snap(Before())), 0, Before())
    ensures StoredOf(Snapshot(Snap(Before())), 0, Before()) == Shape(Before(), {})
    ensures StoredOf(Snapshot(Snap(Later())), 0, Later()) == Shape(Later(), {}) && Doc(Shape(Later(), {})) == Later()
  {
    hide Snap, Repr, Proper, Comparable, Denotes, StoredOf, Shape, Doc;
    ExampleFits();
    SnapReady(Before());
    SnapReady(Later());
    ComparableMix(Before(), Later());
  }

  /** How a field of a written object is stored. */
  lemma FieldShape(d: Bytes, off: int, t: Tree, known: set<seq<Bytes>>, i: nat)
    requires t.Obj? && Denotes(Snapshot(d), off, t) && StoredOf(Snapshot(d), off, t) == Shape(t, known) && i < |t.vals|
    ensures NodeAt(Snapshot(d), off).Some? && |NodeAt(Snapshot(d), off).value.Slots()| == |t.vals|
    ensures var voff := NodeAt(Snapshot(d), off).value.Slots()[i];
            && Denotes(Snapshot(d), voff, t.vals[i])
            && StoredOf(Snapshot(d), voff, t.vals[i]) == Shape(t.vals[i], AfterUpto(t.vals, i, known + {t.names}))
  {
    StoredParts(Snapshot(d), off, t);
    ObjectShape(t.names, t.vals, known);
    var slots := NodeAt(Snapshot(d), off).value.Slots();
    hide Denotes, NodeAt, StoredOf, StoredAll, Shape, Shapes, AfterUpto;
    StoredAt(Snapshot(d), slots, t.vals, i);
    ShapesAt(t.vals, |t.vals|, known + {t.names}, i);
  }

  lemma ExampleFields(a: Bytes, f: Fields, sb: Stored)
    requires Denotes(Snapshot(a), 0, Before()) && StoredOf(Snapshot(a), 0, Before()) == Shape(Before(), {})
    requires NodeAt(Snapshot(a), 0).Some? && NodeAt(Snapshot(a), 0).value.NObj?
    requires sb == Shape(Later(), {}) && Doc(sb) == Later() && f == FieldsOf(NodeAt(Snapshot(a), 0).value, Before(), Later(), sb)
    requires f.names == Before().names
    ensures |NodeAt(Snapshot(a), 0).value.Slots()| == 1 && NodeAt(Snapshot(a), 0).value.Slots() == f.voffs
    ensures f.names == [[112]] && f.bnames == [[111], [112]] && f.tas == [Ones()] && |f.tbs| == |f.sbs| == 2 && f.tbs[1] == Ones()
    ensures Denotes(Snapshot(a), f.voffs[0], Ones()) && Doc(f.sbs[1]) == Ones()
    ensures StoredOf(Snapshot(a), f.voffs[0], Ones()) != f.sbs[1]
  {
    hide Denotes, NodeAt, StoredOf, Shape, Shapes, After, AfterUpto, Doc;
    FieldShape(a, 0, Before(), {}, 0);
    NothingBefore(Before().vals, {Before().names});
    ObjectShape(Later().names, Later().vals, {});
    ShapesAt(Later().vals, 2, {Later().names}, 1);
    FieldDocs(sb);
    OnesDiffer();
    assert {} + {Before().names} == {Before().names} && {} + {Later().names} == {Later().names};
  }

  lemma NothingBefore(ts: seq<Tree>, known: set<seq<Bytes>>)
    ensures AfterUpto(ts, 0, known) == known
  {
  }

  lemma ExampleCompared(a: Bytes, f: Fields, at: int)
    requires f.Valid() && DenotesAll(Snapshot(a), f.voffs, f.tas)
    requires f.names == [[112]] && f.bnames == [[111], [112]] && f.tas == [Ones()] && |f.tbs| == |f.sbs| == 2 && f.tbs[1] == Ones()
    requires |f.voffs| == 1 && Denotes(Snapshot(a), f.voffs[0], Ones()) && Doc(f.sbs[1]) == Ones() && Proper(Ones())
    requires StoredOf(Snapshot(a), f.voffs[0], Ones()) != f.sbs[1]
    ensures f.voffs[0] in CompareUpto(a, f, 1, at, map[], EMPTY).over
  {
    CompareStep(a, f, 0, at, map[], EMPTY);
    SelfNothing(a, f, at);
    hide CompareUpto, Denotes, DenotesAll, Diff, StoredOf, Doc, Docs, Proper, NoRepeats;
    IndexOfAt(f.bnames, 1);
    RewrittenExactly(a, f.voffs[0], Ones(), f.sbs[1], true, at + 0, map[], EMPTY);
  }

  lemma SelfNothing(a: Bytes, f: Fields, at: int)
    requires f.Valid() && DenotesAll(Snapshot(a), f.voffs, f.tas)
    ensures CompareUpto(a, f, 0, at, map[], EMPTY) == Progress(map[], [], map[], EMPTY)
  {
    hide Denotes, Proper;
  }

  /** The array `p` is equal in both versions, and yet the delta overrides its place. */
  lemma EqualArrayRewritten()
    ensures Comparable(Snap(Before()), Before(), Later()) && Denotes(Snapshot(Snap(Later())), 0, Later())
    ensures Before().vals[0] == Later().vals[1]
    ensures var a, sb := Snap(Before()), StoredOf(Snapshot(Snap(Later())), 0, Later());
            && Doc(sb) == Later() && NodeAt(Snapshot(a), 0).Some? && |NodeAt(Snapshot(a), 0).value.Slots()| == 1
            && NodeAt(Snapshot(a), 0).value.Slots()[0] in RootDiff(a, Before(), Later(), sb).over
  {
    hide *;
    ExampleFits();
    ExampleShapes();
    var a, sb := Snap(Before()), Shape(Later(), {});
    RootIsDiff(a, Before(), Later(), sb);
    ObjectFields(a, 0, Before(), Later(), sb);
    DiffIsDiffObject(a, 0, Before(), Later(), sb, false, |a| + 4, map[], EMPTY);
    var f := FieldsOf(NodeAt(Snapshot(a), 0).value, Before(), Later(), sb);
    FieldsSizes(f);
    ExampleFields(a, f, sb);
    var p0, p, w := DiffObjectParts(a, 0, f, |a| + 4, map[], EMPTY);
    ExampleCompared(a, f, |a| + 4);
    AddFrame(f, |f.bnames|, |a| + 4, p0);
  }
}
