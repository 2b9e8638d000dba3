/** Looking things up in a snapshot with its delta, from the root on down: every object
    on the way has tables that binary search can use, so a pointer leads to exactly what
    the new document holds there. */
module DeltaLookups {
  import opened ByteCodec
  import opened Names
  import opened Trees
  import opened Reader
  import opened StoredShapes
  import opened Lookups
  import opened DeltaFormat
  import opened DeltaFiles

  /** Whatever the kind of the object that reading finds, its name tables are sorted. */
  lemma DenotedIsSorted(v: View, off: int, names: seq<Bytes>, vals: seq<Tree>)
    requires v.Delta? && v.lookups && Denotes(v, off, Obj(names, vals)) && Ascending(names)
    ensures off >= 0 && SortedAt(v, off)
  {
    hide PatchAt, RawObject, Ascending, OverlayAt;
    assert Searchable(v, off) && NodeAt(v, off).Some? && Matches(NodeAt(v, off).value, Obj(names, vals));
  }

  /** ObjectValueOffset on an object of a delta: the search finds exactly the names of the
      document's object, each with the place of its own value. */
  method Find(r: DeltaReader, off: int, name: Bytes, ghost names: seq<Bytes>, ghost vals: seq<Tree>)
    returns (voff: Option<int>)
    requires r.Valid() && Denotes(r.View(), off, Obj(names, vals)) && Proper(Obj(names, vals))
    ensures voff.Some? <==> name in names
    ensures forall i | 0 <= i < |names| && names[i] == name :: voff.Some? && Denotes(r.View(), voff.value, vals[i])
  {
    DenotedIsSorted(r.View(), off, names, vals);
    LookupAgrees(r.View(), off, names, vals, name);
    NodeOfObject(r.View(), off, names, vals);
    hide Denotes, SortedAt, NodeAt, ValueOffset;
    voff := DeltaValueOffset(r, off, name);
  }

  lemma NodeOfObject(v: View, off: int, names: seq<Bytes>, vals: seq<Tree>)
    requires Denotes(v, off, Obj(names, vals)) && |names| == |vals|
    ensures var n := NodeAt(v, off); n.Some? && n.value.NObj? && |n.value.names| == |n.value.voffs|
  {
    hide NodeAt;
  }

  /** newFile on a delta: the overrides are applied to the offset, and the type found
      there decides what is read. */
  method ReadElement(r: DeltaReader, off: int, ghost t: Tree) returns (n: Node)
    requires r.Valid() && Denotes(r.View(), off, t)
    ensures NodeAt(r.View(), off) == Some(n) && Matches(n, t) && DenotesAll(r.View(), n.Slots(), t.Kids())
  {
    KidsDenoted(r.View(), off, t);
    assert Matches(NodeAt(r.View(), off).value, t);
    hide Denotes, PatchAt, RawObject, RawNode, OverlayAt;
    if off < 0 {
      return NLeaf(Embedded(off).value);
    }
    var at := r.DeltaOffset(off);
    if 0 <= at < |r.content| && r.content[at] == T_OBJECT_PATCH {
      n := PatchedListing(r.content, at);
    } else {
      n := RawNode(r.content, at).value;
    }
  }

  // ---- Pointers into a document ----

  /** strconv.ParseInt with 32 bits. */
  function ParseIndex(s: Bytes): Option<int> {
    var i := Atoi(s);
    if i.Some? && IsInt32(i.value) then i else None
  }

  predicate IsBlob(t: Tree) { t.Leaf? && t.s.Blob? }

  /** The part of a document that a pointer leads to. Binary data is no JSON value and
      cannot be reached. */
  function Extract(t: Tree, ptr: seq<Bytes>): Option<Tree>
    decreases t
  {
    if ptr == [] then Some(t)
    else
      match t
      case Leaf(_) => None
      case Arr(elems) =>
        var i := ParseIndex(ptr[0]);
        if i.None? || !(0 <= i.value < |elems|) || IsBlob(elems[i.value]) then None
        else Extract(elems[i.value], ptr[1..])
      case Obj(names, vals) =>
        var i := IndexOf(names, ptr[0]);
        if !(0 <= i < |vals|) || IsBlob(vals[i]) then None else Extract(vals[i], ptr[1..])
  }

  /** extractImpl on the values that stand at the offsets of a delta. */
  method ExtractAt(r: DeltaReader, off: int, ptr: seq<Bytes>, ghost t: Tree) returns (o: Option<int>)
    requires r.Valid() && Denotes(r.View(), off, t) && Proper(t)
    ensures o.Some? <==> Extract(t, ptr).Some?
    ensures o.Some? ==> Denotes(r.View(), o.value, Extract(t, ptr).value)
    decreases |ptr|, 0
  {
    hide Denotes, NodeAt;
    if ptr == [] {
      return Some(off);
    }
    var n := ReadElement(r, off, t);
    match n {
      case NLeaf(_) =>
        return None;
      case NArr(offs) =>
        var i := ParseIndex(ptr[0]);
        if i.None? || !(0 <= i.value < |offs|) {
          return None;
        }
        o := ExtractBelow(r, offs[i.value], ptr[1..], t.elems[i.value]);
      case NObj(_, _, _, _) =>
        var voff := Find(r, off, ptr[0], t.names, t.vals);
        ghost var i := IndexOf(t.names, ptr[0]);
        if voff.None? {
          return None;
        }
        o := ExtractBelow(r, voff.value, ptr[1..], t.vals[i]);
    }
  }

  method ExtractBelow(r: DeltaReader, off: int, ptr: seq<Bytes>, ghost t: Tree) returns (o: Option<int>)
    requires r.Valid() && Denotes(r.View(), off, t) && Proper(t)
    ensures o.Some? <==> !IsBlob(t) && Extract(t, ptr).Some?
    ensures o.Some? ==> Denotes(r.View(), o.value, Extract(t, ptr).value)
    decreases |ptr|, 1
  {
    hide Denotes, NodeAt, Extract;
    var n := ReadElement(r, off, t);
    if n.NLeaf? && n.s.Blob? {
      return None;
    }
    o := ExtractAt(r, off, ptr, t);
  }

  /** End to end: a pointer looked up in the snapshot `a` with its delta to `tb` leads to
      exactly what `tb` holds there, or to nothing when `tb` holds nothing there. */
  method ExtractThroughDelta(a: Bytes, delta: Bytes, ptr: seq<Bytes>, ghost ta: Tree, ghost tb: Tree,
                             ghost sb: Stored)
    returns (r: DeltaReader, o: Option<int>)
    requires Doc(sb) == tb && Comparable(a, ta, tb) && delta == DeltaFile(a, ta, tb, sb) && |a + delta| < TWO_31
    ensures r.Valid() && Denotes(r.View(), 0, tb) && r.content == a + delta
    ensures o.Some? <==> Extract(tb, ptr).Some?
    ensures o.Some? ==> Denotes(r.View(), o.value, Extract(tb, ptr).value)
  {
    assert Proper(tb);
    DeltaCorrect(a, ta, tb, sb);
    hide Denotes, Proper, DeltaFile, Extract, OpenDelta;
    r := OpenDelta(a, delta).value;
    OpenedContent(a, delta);
    o := ExtractAt(r, 0, ptr, tb);
  }

  lemma OpenedContent(a: Bytes, delta: Bytes)
    requires OpenDelta(a, delta).Some?
    ensures OpenDelta(a, delta).value.content == a + delta
  {
  }

  // ---- Where a pointer leads ----

  /** A segment is an index exactly if it is the text of a 32-bit integer. */
  lemma ParseIndexMeans(s: Bytes, v: int)
    ensures ParseIndex(s) == Some(v) <==> IsInt32(v) && IntText(s, v)
  {
    hide Atoi, IntText;
    AtoiMeans(s, v);
    if ParseIndex(s).Some? {
      AtoiMeans(s, ParseIndex(s).value);
    }
  }

  /** Below an array, the text of an index leads to the element with that index: a leading
      plus sign or leading zeros make no difference. Binary data is not reached. */
  lemma ElementLaw(elems: seq<Tree>, seg: Bytes, rest: seq<Bytes>, i: int)
    requires |elems| < TWO_31 && IntText(seg, i)
    ensures Extract(Arr(elems), [seg] + rest) ==
            if 0 <= i < |elems| && !(elems[i].Leaf? && elems[i].s.Blob?) then Extract(elems[i], rest) else None
  {
    hide ParseIndex, IntText;
    ParseIndexMeans(seg, i);
    if ParseIndex(seg).Some? {
      ParseIndexMeans(seg, ParseIndex(seg).value);
      OneInteger(seg, i, ParseIndex(seg).value);
    }
    assert ([seg] + rest)[1..] == rest;
  }

  /** A text stands for one integer. */
  lemma OneInteger(s: Bytes, v: int, w: int)
    requires IntText(s, v) && IntText(s, w)
    ensures v == w
  {
    hide DigitSum;
  }

  /** A segment that is no integer leads nowhere below an array. */
  lemma NoIndexLaw(elems: seq<Tree>, seg: Bytes, rest: seq<Bytes>)
    requires forall i :: !IntText(seg, i)
    ensures Extract(Arr(elems), [seg] + rest) == None
  {
    hide ParseIndex, IntText;
    if ParseIndex(seg).Some? {
      ParseIndexMeans(seg, ParseIndex(seg).value);
    }
  }

  /** Below an object, a name leads to its value, and no other segment leads anywhere. */
  lemma FieldLaw(names: seq<Bytes>, vals: seq<Tree>, seg: Bytes, rest: seq<Bytes>)
    requires |names| == |vals| && Ascending(names)
    ensures seg !in names ==> Extract(Obj(names, vals), [seg] + rest) == None
    ensures forall i | 0 <= i < |names| && names[i] == seg ::
              Extract(Obj(names, vals), [seg] + rest) ==
                if vals[i].Leaf? && vals[i].s.Blob? then None else Extract(vals[i], rest)
  {
    assert ([seg] + rest)[1..] == rest;
    forall i | 0 <= i < |names| && names[i] == seg ensures IndexOf(names, seg) == i {
      IndexOfAt(names, i);
    }
  }

  /** The empty pointer leads to the document itself, and none leads into a scalar. */
  lemma EndLaw(t: Tree, seg: Bytes, rest: seq<Bytes>)
    ensures Extract(t, []) == Some(t)
    ensures t.Leaf? ==> Extract(t, [seg] + rest) == None
  {
  }
}
