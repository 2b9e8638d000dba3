/** What an offset means: the nodes of a snapshot, the override table and object
    patches a delta lays over it, and the document reachable from an offset. */
module Reader {
  import opened ByteCodec
  import opened Names
  import opened Trees

  /** One decoded element. Containers hold the offsets of their children; an
      object also has its length and the offsets of its names. */
  datatype Node =
    | NLeaf(s: Scalar)
    | NArr(offs: seq<int>)
    | NObj(len: int, names: seq<Bytes>, noffs: seq<int>, voffs: seq<int>)
  {
    function Slots(): seq<int> {
      match this
      case NLeaf(_) => []
      case NArr(offs) => offs
      case NObj(_, _, _, voffs) => voffs
    }
  }

  // ---- Raw nodes: the bytes as the snapshot reader takes them ----

  function NamesFrom(c: Bytes, noffs: seq<int>): (r: Option<seq<Bytes>>)
    ensures r.Some? ==> |r.value| == |noffs|
  {
    if forall i | 0 <= i < |noffs| :: StringAt(c, noffs[i]).Some? then
      Some(seq(|noffs|, i requires 0 <= i < |noffs| && StringAt(c, noffs[i]).Some? => StringAt(c, noffs[i]).value))
    else None
  }

  lemma NameOf(c: Bytes, noffs: seq<int>, i: int)
    requires NamesFrom(c, noffs).Some? && 0 <= i < |noffs|
    ensures StringAt(c, noffs[i]) == Some(NamesFrom(c, noffs).value[i])
  {
  }

  lemma NamesAreFrom(c: Bytes, noffs: seq<int>, names: seq<Bytes>)
    requires |noffs| == |names|
    requires forall i | 0 <= i < |names| :: StringAt(c, noffs[i]) == Some(names[i])
    ensures NamesFrom(c, noffs) == Some(names)
  {
    assert NamesFrom(c, noffs).value == names;
  }

  /** The names of a full object at `off`, and where its name offsets end. */
  datatype NameTable = NameTable(names: seq<Bytes>, noffs: seq<int>, next: int)

  function NameTableAt(c: Bytes, off: int): (r: Option<NameTable>)
    ensures r.Some? ==> |r.value.names| == |r.value.noffs|
  {
    var n := VarintAt(c, off + 1);
    if n.None? then None
    else
      var noffs := WordsAt(c, n.value.1, n.value.0);
      if noffs.None? then None
      else
        var names := NamesFrom(c, noffs.value);
        if names.None? then None
        else Some(NameTable(names.value, noffs.value, n.value.1 + 4 * n.value.0))
  }

  function ObjectFrom(c: Bytes, table: Option<NameTable>, voffset: int): (r: Option<Node>)
    requires table.Some? ==> |table.value.names| == |table.value.noffs|
    ensures r.Some? ==> r.value.NObj? && r.value.len == |r.value.names| == |r.value.noffs| == |r.value.voffs|
  {
    if table.None? then None
    else
      var voffs := WordsAt(c, voffset, |table.value.names|);
      if voffs.None? then None
      else Some(NObj(|table.value.names|, table.value.names, table.value.noffs, voffs.value))
  }

  /** A full object carries its own name table, a thin one points at another's. */
  function RawObject(c: Bytes, off: int): (r: Option<Node>)
    ensures r.Some? ==> r.value.NObj? && r.value.len == |r.value.names| == |r.value.noffs| == |r.value.voffs|
  {
    if off < 0 || off >= |c| then None
    else if c[off] == T_OBJECT_FULL then
      var table := NameTableAt(c, off);
      if table.None? then None else ObjectFrom(c, table, table.value.next)
    else if c[off] == T_OBJECT_THIN && off + 5 <= |c| then
      ObjectFrom(c, NameTableAt(c, I32(c, off + 1)), off + 5)
    else None
  }

  function RawArray(c: Bytes, off: int): Option<Node> {
    var n := VarintAt(c, off + 1);
    if n.None? then None
    else
      var offs := WordsAt(c, n.value.1, n.value.0);
      if offs.None? then None else Some(NArr(offs.value))
  }

  function RawLeaf(c: Bytes, off: int): Option<Scalar>
    requires 0 <= off < |c|
  {
    var t := c[off];
    if t == T_NIL then Some(Null)
    else if t == T_FALSE then Some(False)
    else if t == T_TRUE then Some(True)
    else if t == T_STRING_INT then
      var i := VarintAt(c, off + 1);
      if i.None? then None else Some(Int(i.value.0))
    else if t == T_STRING || t == T_NUMBER || t == T_BINARY_FULL then
      var s := StringAt(c, off + 1);
      if s.None? then None
      else if t == T_STRING then Some(Str(s.value))
      else if t == T_NUMBER then Some(Num(s.value))
      else Some(Blob(s.value))
    else None
  }

  function RawNode(c: Bytes, off: int): Option<Node> {
    if off < 0 || off >= |c| then None
    else if c[off] == T_ARRAY then RawArray(c, off)
    else if c[off] == T_OBJECT_FULL || c[off] == T_OBJECT_THIN then RawObject(c, off)
    else
      var s := RawLeaf(c, off);
      if s.None? then None else Some(NLeaf(s.value))
  }

  // ---- Object patches ----

  /** An object patch: the offset of the object underneath, the new length, and
      the changed names with their new value offsets. */
  datatype Patch = Patch(full: int, len: int, names: seq<Bytes>, noffs: seq<int>, voffs: seq<int>)

  /** The value offset that marks a removed name. */
  const REMOVED := -10

  function PatchAt(c: Bytes, at: int): (r: Option<Patch>)
    ensures r.Some? ==> |r.value.names| == |r.value.noffs| == |r.value.voffs|
  {
    if at < 0 || at + 5 > |c| then None
    else
      var len := VarintAt(c, at + 5);
      if len.None? || len.value.0 < 0 then None
      else
        var changed := VarintAt(c, len.value.1);
        if changed.None? then None
        else
          var noffs := WordsAt(c, changed.value.1, changed.value.0);
          var voffs := WordsAt(c, changed.value.1 + 4 * changed.value.0, changed.value.0);
          if noffs.None? || voffs.None? then None
          else
            var names := NamesFrom(c, noffs.value);
            if names.None? then None
            else Some(Patch(U32(c, at + 1), len.value.0, names.value, noffs.value, voffs.value))
  }

  datatype Slot = Slot(name: int, value: int)

  /** The slots of an object by name; a repeated name keeps its last slot. */
  function SlotMap(names: seq<Bytes>, noffs: seq<int>, voffs: seq<int>): map<Bytes, Slot>
    requires |names| == |noffs| == |voffs|
  {
    map n | n in names :: Slot(noffs[IndexOf(names, n)], voffs[IndexOf(names, n)])
  }

  /** The slots of a patched object: its changes win, removed names are gone. */
  ghost function Merged(base: map<Bytes, Slot>, changes: map<Bytes, Slot>): map<Bytes, Slot> {
    map n | n in base.Keys + changes.Keys && (n in changes ==> changes[n].value != REMOVED) ::
      if n in changes then changes[n] else base[n]
  }

  ghost function ListedObject(len: int, m: map<Bytes, Slot>): Node {
    var names := Sorted(m.Keys);
    NObj(len, names,
         seq(|names|, i requires 0 <= i < |names| => m[names[i]].name),
         seq(|names|, i requires 0 <= i < |names| => m[names[i]].value))
  }

  ghost function OverlayAt(c: Bytes, at: int): Option<Node> {
    var p := PatchAt(c, at);
    if p.None? then None
    else
      var o := RawObject(c, p.value.full);
      if o.None? then None
      else
        Some(ListedObject(p.value.len,
                          Merged(SlotMap(o.value.names, o.value.noffs, o.value.voffs),
                                 SlotMap(p.value.names, p.value.noffs, p.value.voffs))))
  }

  // ---- Views ----

  /** A snapshot, or a snapshot of `slen` bytes with a delta appended and the
      overrides of that delta. Reading lists the names of an object; with `lookups`,
      its names can also be searched. */
  datatype View =
    | Snapshot(content: Bytes)
    | Delta(content: Bytes, slen: int, over: map<int, int>, lookups: bool)

  function Resolve(v: View, off: int): int {
    if v.Delta? && off <= v.slen && off in v.over then v.over[off] else off
  }

  function Embedded(off: int): Option<Scalar> {
    if -off == T_NIL as int then Some(Null)
    else if -off == T_FALSE as int then Some(False)
    else if -off == T_TRUE as int then Some(True)
    else None
  }

  /** The node an offset stands for: embedded in the offset itself, or read from
      the place the overrides send it to. */
  ghost function NodeAt(v: View, off: int): Option<Node> {
    if off < 0 then
      var s := Embedded(off);
      if s.None? then None else Some(NLeaf(s.value))
    else
      var at := Resolve(v, off);
      if v.Delta? && 0 <= at < |v.content| && v.content[at] == T_OBJECT_PATCH then OverlayAt(v.content, at)
      else RawNode(v.content, at)
  }

  ghost predicate Matches(n: Node, t: Tree) {
    match t
    case Leaf(s) => n == NLeaf(s)
    case Arr(elems) => n.NArr? && |n.offs| == |elems|
    case Obj(names, vals) => n.NObj? && n.names == names && n.len == |names| == |n.noffs| && |n.voffs| == |vals|
  }

  /** The changes of an object patch, and the names of the object underneath, stand in
      ascending order. */
  ghost predicate PatchSorted(c: Bytes, at: int) {
    && PatchAt(c, at).Some? && Ascending(PatchAt(c, at).value.names)
    && var o := RawObject(c, PatchAt(c, at).value.full);
       o.Some? && Ascending(o.value.names)
  }

  /** If names are to be searched at `off`, they can be: listing a patched object would
      succeed whatever the order of its tables, binary search would not. */
  ghost predicate Searchable(v: View, off: int) {
    v.Delta? && v.lookups && off >= 0 ==>
      var at := Resolve(v, off);
      0 <= at < |v.content| && v.content[at] == T_OBJECT_PATCH ==> PatchSorted(v.content, at)
  }

  lemma RawIsNoPatch(c: Bytes, off: int)
    requires RawNode(c, off).Some?
    ensures 0 <= off < |c| && c[off] != T_OBJECT_PATCH
  {
  }

  /** Reading offset `off` of the view yields the document `t`. */
  ghost predicate Denotes(v: View, off: int, t: Tree)
    decreases t
  {
    var n := NodeAt(v, off);
    && n.Some? && Matches(n.value, t) && Searchable(v, off)
    && forall i | 0 <= i < |t.Kids()| :: Denotes(v, n.value.Slots()[i], t.Kids()[i])
  }

  ghost predicate DenotesAll(v: View, offs: seq<int>, ts: seq<Tree>) {
    |offs| == |ts| && forall i | 0 <= i < |ts| :: Denotes(v, offs[i], ts[i])
  }

  lemma KidsDenoted(v: View, off: int, t: Tree)
    requires Denotes(v, off, t)
    ensures DenotesAll(v, NodeAt(v, off).value.Slots(), t.Kids())
  {
  }

  // ---- An offset means at most one document ----

  lemma {:induction false} DenotesUnique(v: View, off: int, t: Tree, u: Tree)
    requires Denotes(v, off, t) && Denotes(v, off, u)
    ensures t == u
    decreases t
  {
    var n := NodeAt(v, off).value;
    assert Matches(n, t) && Matches(n, u);
    assert |t.Kids()| == |u.Kids()|;
    forall i | 0 <= i < |t.Kids()| ensures t.Kids()[i] == u.Kids()[i] {
      DenotesUnique(v, n.Slots()[i], t.Kids()[i], u.Kids()[i]);
    }
    assert t.Kids() == u.Kids();
  }

  // ---- What has been written stays readable as the buffer grows ----

  lemma NamesExtend(c: Bytes, d: Bytes, noffs: seq<int>)
    requires c <= d && NamesFrom(c, noffs).Some?
    ensures NamesFrom(d, noffs) == NamesFrom(c, noffs)
  {
    forall i | 0 <= i < |noffs| ensures StringAt(d, noffs[i]) == StringAt(c, noffs[i]) {
      StringExtends(c, d, noffs[i]);
    }
    assert NamesFrom(d, noffs).value == NamesFrom(c, noffs).value;
  }

  lemma NameTableExtends(c: Bytes, d: Bytes, off: int)
    requires c <= d && NameTableAt(c, off).Some?
    ensures NameTableAt(d, off) == NameTableAt(c, off)
  {
    VarintExtends(c, d, off + 1);
    var n := VarintAt(c, off + 1).value;
    WordsExtends(c, d, n.1, n.0);
    NamesExtend(c, d, WordsAt(c, n.1, n.0).value);
  }

  lemma RawObjectExtends(c: Bytes, d: Bytes, off: int)
    requires c <= d && RawObject(c, off).Some?
    ensures RawObject(d, off) == RawObject(c, off)
  {
    assert c[off] == d[off];
    if c[off] == T_OBJECT_FULL {
      NameTableExtends(c, d, off);
      var table := NameTableAt(c, off).value;
      WordsExtends(c, d, table.next, |table.names|);
    } else {
      assert d[..|c|] == c;
      assert c[off + 1] == d[off + 1] && c[off + 2] == d[off + 2] && c[off + 3] == d[off + 3] && c[off + 4] == d[off + 4];
      var full := I32(c, off + 1);
      NameTableExtends(c, d, full);
      WordsExtends(c, d, off + 5, |NameTableAt(c, full).value.names|);
    }
  }

  lemma RawNodeExtends(c: Bytes, d: Bytes, off: int)
    requires c <= d && RawNode(c, off).Some?
    ensures RawNode(d, off) == RawNode(c, off)
  {
    assert c[off] == d[off];
    var t := c[off];
    if t == T_ARRAY {
      VarintExtends(c, d, off + 1);
      var n := VarintAt(c, off + 1).value;
      WordsExtends(c, d, n.1, n.0);
    } else if t == T_OBJECT_FULL || t == T_OBJECT_THIN {
      RawObjectExtends(c, d, off);
    } else if t == T_STRING_INT {
      VarintExtends(c, d, off + 1);
    } else if t == T_STRING || t == T_NUMBER || t == T_BINARY_FULL {
      StringExtends(c, d, off + 1);
    }
  }

  /** Offsets handed out earlier keep their meaning as a snapshot grows. */
  lemma {:induction false} DenotesExtends(c: Bytes, d: Bytes, off: int, t: Tree)
    requires c <= d && Denotes(Snapshot(c), off, t)
    ensures Denotes(Snapshot(d), off, t)
    decreases t
  {
    if off >= 0 {
      RawNodeExtends(c, d, off);
    }
    var slots := NodeAt(Snapshot(c), off).value.Slots();
    forall i | 0 <= i < |t.Kids()| ensures Denotes(Snapshot(d), slots[i], t.Kids()[i]) {
      DenotesExtends(c, d, slots[i], t.Kids()[i]);
    }
  }
}
