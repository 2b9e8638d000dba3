/** Documents as they are stored: an object may be stored full, thin or patched, which
    makes no difference to the document but does to the comparison of array elements. */
module StoredShapes {
  import opened ByteCodec
  import opened Names
  import opened Trees
  import opened Reader

  /** A document together with the type of each of its objects. */
  datatype Stored =
    | SLeaf(s: Scalar)
    | SArr(elems: seq<Stored>)
    | SObj(kind: int, names: seq<Bytes>, vals: seq<Stored>)

  /** The document that is stored. */
  function Doc(s: Stored): Tree
    decreases s
  {
    match s
    case SLeaf(x) => Leaf(x)
    case SArr(elems) => Arr(Docs(elems))
    case SObj(_, names, vals) => Obj(names, Docs(vals))
  }

  function Docs(ss: seq<Stored>): (r: seq<Tree>)
    ensures |r| == |ss|
    decreases ss
  {
    seq(|ss|, i requires 0 <= i < |ss| => Doc(ss[i]))
  }

  lemma DocsAt(ss: seq<Stored>, i: nat)
    requires i < |ss|
    ensures Docs(ss)[i] == Doc(ss[i])
  {
  }

  lemma FieldDocs(s: Stored)
    requires s.SObj?
    ensures Doc(s).Obj? && |Doc(s).vals| == |s.vals| && forall i | 0 <= i < |s.vals| :: Doc(s.vals[i]) == Doc(s).vals[i]
  {
    forall i | 0 <= i < |s.vals| ensures Doc(s.vals[i]) == Doc(s).vals[i] {
      DocsAt(s.vals, i);
    }
  }

  /** resolveType: embedded in the offset, or the byte where the overrides send it. */
  function TypeAt(v: View, off: int): int {
    if off < 0 then -off
    else
      var at := Resolve(v, off);
      if 0 <= at < |v.content| then v.content[at] as int else -1
  }

  function TypeOf(s: Stored): int {
    match s
    case SLeaf(x) => Tag(x) as int
    case SArr(_) => T_ARRAY as int
    case SObj(kind, _, _) => kind
  }

  /** How the document `t` is stored at an offset. */
  ghost function StoredOf(v: View, off: int, t: Tree): Stored
    requires Denotes(v, off, t)
    decreases t
  {
    KidsDenoted(v, off, t);
    var slots := NodeAt(v, off).value.Slots();
    match t
    case Leaf(s) => SLeaf(s)
    case Arr(elems) => SArr(StoredAll(v, slots, elems))
    case Obj(names, vals) => SObj(TypeAt(v, off), names, StoredAll(v, slots, vals))
  }

  ghost function StoredAll(v: View, offs: seq<int>, ts: seq<Tree>): (r: seq<Stored>)
    requires DenotesAll(v, offs, ts)
    ensures |r| == |ts|
    decreases ts
  {
    seq(|ts|, i requires 0 <= i < |ts| && DenotesAll(v, offs, ts) => StoredOf(v, offs[i], ts[i]))
  }

  lemma StoredAt(v: View, offs: seq<int>, ts: seq<Tree>, i: nat)
    requires DenotesAll(v, offs, ts) && i < |ts|
    ensures |offs| == |ts| && Denotes(v, offs[i], ts[i]) && StoredAll(v, offs, ts)[i] == StoredOf(v, offs[i], ts[i])
  {
    hide Denotes, StoredOf;
  }

  /** What is stored is the document that is read, whatever the types of its objects. */
  lemma {:induction false} StoredIsDoc(v: View, off: int, t: Tree)
    requires Denotes(v, off, t)
    ensures Doc(StoredOf(v, off, t)) == t
    decreases t, 0
  {
    StoredParts(v, off, t);
    hide Denotes, NodeAt, StoredOf;
    var slots := NodeAt(v, off).value.Slots();
    match t
    case Leaf(_) =>
    case Arr(elems) => StoredAllDocs(v, slots, elems);
    case Obj(_, vals) => StoredAllDocs(v, slots, vals);
  }

  lemma {:induction false} StoredAllDocs(v: View, offs: seq<int>, ts: seq<Tree>)
    requires DenotesAll(v, offs, ts)
    ensures Docs(StoredAll(v, offs, ts)) == ts
    decreases ts, 1
  {
    hide Denotes, StoredOf, Doc;
    var ss := StoredAll(v, offs, ts);
    forall i | 0 <= i < |ts| ensures Docs(ss)[i] == ts[i] {
      StoredAt(v, offs, ts, i);
      StoredIsDoc(v, offs[i], ts[i]);
    }
  }

  predicate ObjectType(kind: int) {
    kind == T_OBJECT_FULL as int || kind == T_OBJECT_THIN as int || kind == T_OBJECT_PATCH as int
  }

  /** The type can be told from the first byte, or from the offset itself. */
  lemma StoredType(v: View, off: int, t: Tree)
    requires Denotes(v, off, t)
    ensures TypeOf(StoredOf(v, off, t)) == TypeAt(v, off)
    ensures t.Obj? ==> ObjectType(TypeAt(v, off))
  {
    StoredParts(v, off, t);
    NodeType(v, off, t);
    hide Denotes, StoredOf, NodeAt, TypeAt;
  }

  lemma NodeType(v: View, off: int, t: Tree)
    requires Denotes(v, off, t)
    ensures t.Leaf? ==> TypeAt(v, off) == Tag(t.s) as int
    ensures t.Arr? ==> TypeAt(v, off) == T_ARRAY as int
    ensures t.Obj? ==> ObjectType(TypeAt(v, off))
  {
    assert NodeAt(v, off).Some? && Matches(NodeAt(v, off).value, t);
    hide Denotes, PatchAt, RawObject, RawArray, VarintAt, StringAt, Merged, SlotMap, Sorted;
  }

  /** The parts of what is stored. */
  lemma StoredParts(v: View, off: int, t: Tree)
    requires Denotes(v, off, t)
    ensures var s, slots := StoredOf(v, off, t), NodeAt(v, off).value.Slots();
            && DenotesAll(v, slots, t.Kids())
            && (t.Leaf? ==> s == SLeaf(t.s))
            && (t.Arr? ==> s == SArr(StoredAll(v, slots, t.elems)))
            && (t.Obj? ==> s == SObj(TypeAt(v, off), t.names, StoredAll(v, slots, t.vals)))
  {
    hide TypeAt, StoredAll, NodeAt;
    KidsDenoted(v, off, t);
  }
}
