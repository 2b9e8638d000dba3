/** The reader's searches: an offset in the override table, a name in a full, thin
    or patched object, and the merged listing of a patched object. */
module Lookups {
  import opened ByteCodec
  import opened Names
  import opened Trees
  import opened Reader

  // ---- The override table ----

  ghost predicate Increasing(keys: seq<int>) {
    forall i, j | 0 <= i < j < |keys| :: keys[i] < keys[j]
  }

  /** The overrides that two parallel tables of words describe. */
  function TableMap(keys: seq<int>, vals: seq<int>): map<int, int>
    requires |keys| == |vals|
  {
    map k | k in keys :: vals[IndexOf(keys, k)]
  }

  /** What a search that has narrowed down to position `i` has found. */
  lemma TableEntry(keys: seq<int>, vals: seq<int>, i: nat, key: int)
    requires |keys| == |vals| && i <= |keys|
    requires forall k | 0 <= k < i :: keys[k] < key
    requires forall k | i <= k < |keys| :: key <= keys[k]
    requires Increasing(keys)
    ensures key in TableMap(keys, vals) <==> i < |keys| && keys[i] == key
    ensures i < |keys| && keys[i] == key ==> TableMap(keys, vals)[key] == vals[i]
  {
    if i < |keys| && keys[i] == key {
      assert IndexOf(keys, key) == i;
    }
  }

  /** A delta reader: the snapshot with its delta appended, and where in there the
      sorted tables of overridden offsets and their replacements stand. */
  datatype DeltaReader = DeltaReader(content: Bytes, slen: nat, dops: nat, dooffsets: int, dvoffsets: int) {

    ghost predicate Valid() {
      && WordsAt(content, dooffsets, dops).Some? && WordsAt(content, dvoffsets, dops).Some?
      && Increasing(Keys())
    }

    ghost function Keys(): (r: seq<int>)
      requires WordsAt(content, dooffsets, dops).Some?
      ensures |r| == dops
    {
      WordsAt(content, dooffsets, dops).value
    }

    ghost function Vals(): (r: seq<int>)
      requires WordsAt(content, dvoffsets, dops).Some?
      ensures |r| == dops
    {
      WordsAt(content, dvoffsets, dops).value
    }

    ghost function View(): View
      requires Valid()
    {
      Delta(content, slen, TableMap(Keys(), Vals()), true)
    }

    /** deltaOffset: binary search in the sorted override table. */
    method DeltaOffset(offset: int) returns (r: int)
      requires Valid()
      ensures r == Resolve(View(), offset)
    {
      hide WordsAt, I32, U32, TableMap;
      if slen < offset {
        return offset; // outside of the snapshot
      }
      var i := FirstNotBelow(content, dops, dooffsets, offset, Keys());
      TableEntry(Keys(), Vals(), i, offset);
      if i >= dops {
        return offset;
      }
      WordOf(content, dooffsets, dops, i);
      WordOf(content, dvoffsets, dops, i);
      if offset != I32(content, dooffsets + 4 * i) {
        return offset;
      }
      return I32(content, dvoffsets + 4 * i);
    }
  }

  /** The binary search of the override table. */
  method FirstNotBelow(c: Bytes, n: nat, table: int, key: int, ghost keys: seq<int>) returns (i: nat)
    requires WordsAt(c, table, n) == Some(keys) && Increasing(keys)
    ensures i <= n == |keys|
    ensures forall k | 0 <= k < i :: keys[k] < key
    ensures forall k | i <= k < |keys| :: key <= keys[k]
  {
    hide WordsAt, I32, U32;
    i := 0;
    var j := n;
    while i < j
      invariant 0 <= i <= j <= n
      invariant forall k | 0 <= k < i :: keys[k] < key
      invariant forall k | j <= k < n :: key <= keys[k]
    {
      var h := (i + j) / 2;
      WordOf(c, table, n, h);
      if I32(c, table + 4 * h) >= key {
        j := h;
      } else {
        i := h + 1;
      }
    }
  }

  /** newDeltaReader: the first word of the delta says where its table stands. */
  function OpenDelta(snapshot: Bytes, delta: Bytes): Option<DeltaReader> {
    if |delta| < 4 then None
    else
      var ops := VarintAt(delta, I32(delta, 0));
      if ops.None? || ops.value.0 < 0 then None
      else
        var start := ops.value.1 + |snapshot|;
        Some(DeltaReader(snapshot + delta, |snapshot|, ops.value.0, start, start + 4 * ops.value.0))
  }

  // ---- Names in an object ----

  /** The binary search of both object readers: the first name not below `name`,
      if it is that name. */
  method NameIndex(c: Bytes, n: nat, noffsets: int, name: Bytes, ghost names: seq<Bytes>) returns (r: Option<nat>)
    requires WordsAt(c, noffsets, n).Some? && NamesFrom(c, WordsAt(c, noffsets, n).value) == Some(names)
    requires Ascending(names)
    ensures r.Some? ==> r.value < n && names[r.value] == name
    ensures r.None? <==> name !in names
  {
    hide WordsAt, I32, U32, StringAt, NamesFrom;
    var i, j := 0, n;
    ghost var noffs := WordsAt(c, noffsets, n).value;
    while i < j
      invariant 0 <= i <= j <= n
      invariant forall k | 0 <= k < i :: Less(names[k], name)
      invariant forall k | j <= k < n :: !Less(names[k], name)
    {
      var h := (i + j) / 2;
      WordOf(c, noffsets, n, h);
      NameOf(c, noffs, h);
      var str := StringAt(c, I32(c, noffsets + 4 * h));
      if !Less(str.value, name) {
        forall k | h <= k < n ensures !Less(names[k], name) { NotBelow(names, h, k, name); }
        j := h;
      } else {
        forall k | 0 <= k < h ensures Less(names[k], name) { LessIsTransitive(names[k], names[h], name); }
        i := h + 1;
      }
    }
    LessIsStrict(name, name);
    if i >= n {
      return None;
    }
    WordOf(c, noffsets, n, i);
    NameOf(c, noffs, i);
    var str := StringAt(c, I32(c, noffsets + 4 * i));
    if str.value != name {
      forall k | i < k < n ensures names[k] != name {
        LessIsStrict(names[i], names[k]);
        LessIsStrict(names[i], name);
      }
      return None;
    }
    return Some(i);
  }

  lemma NotBelow(names: seq<Bytes>, h: int, k: int, name: Bytes)
    requires Ascending(names) && 0 <= h <= k < |names| && !Less(names[h], name)
    ensures !Less(names[k], name)
  {
    if h < k && Less(names[k], name) {
      LessIsTransitive(names[h], names[k], name);
    }
  }

  // ---- Lookup in a whole object ----

  /** The value offset an object gives a name. */
  function ValueOffset(n: Node, name: Bytes): Option<int>
    requires n.NObj? && |n.names| == |n.voffs|
  {
    if name in n.names then Some(n.voffs[IndexOf(n.names, name)]) else None
  }

  /** The name tables behind an object are sorted, as the writers leave them. */
  ghost predicate SortedAt(v: View, off: int) {
    var c, at := v.content, Resolve(v, off);
    if v.Delta? && 0 <= at < |c| && c[at] == T_OBJECT_PATCH then
      var p := PatchAt(c, at);
      && p.Some? && Ascending(p.value.names)
      && var o := RawObject(c, p.value.full); o.Some? && Ascending(o.value.names)
    else
      RawObject(c, at).Some? && Ascending(RawObject(c, at).value.names)
  }

  /** A patched object lists exactly the names of the merged map, in order. */
  lemma ListedLookup(len: int, m: map<Bytes, Slot>, name: Bytes)
    ensures var n := ListedObject(len, m);
            ValueOffset(n, name) == if name in m then Some(m[name].value) else None
  {
  }

  /** Positions of the tables of a full or thin object. */
  datatype SnapshotObject = SnapshotObject(n: nat, noffsets: int, voffsets: int)

  /** newSnapshotObjectReader. */
  function OpenObject(c: Bytes, off: int): Option<SnapshotObject> {
    if off < 0 || off >= |c| then None
    else if c[off] == T_OBJECT_FULL then
      var n := VarintAt(c, off + 1);
      if n.None? || n.value.0 < 0 then None
      else Some(SnapshotObject(n.value.0, n.value.1, n.value.1 + 4 * n.value.0))
    else if c[off] == T_OBJECT_THIN && off + 5 <= |c| then
      var n := VarintAt(c, I32(c, off + 1) + 1);
      if n.None? || n.value.0 < 0 then None
      else Some(SnapshotObject(n.value.0, n.value.1, off + 5))
    else None
  }

  lemma OpenObjectTables(c: Bytes, off: int)
    requires RawObject(c, off).Some?
    ensures OpenObject(c, off).Some?
    ensures var o, n := OpenObject(c, off).value, RawObject(c, off).value;
            && o.n == |n.names| && WordsAt(c, o.noffsets, o.n) == Some(n.noffs)
            && WordsAt(c, o.voffsets, o.n) == Some(n.voffs) && NamesFrom(c, n.noffs) == Some(n.names)
  {
  }

  /** ObjectValueOffset of a full or thin object. */
  method SnapshotValueOffset(c: Bytes, off: int, name: Bytes) returns (r: Option<int>)
    requires RawObject(c, off).Some? && Ascending(RawObject(c, off).value.names)
    ensures r == ValueOffset(RawObject(c, off).value, name)
  {
    OpenObjectTables(c, off);
    hide RawObject, OpenObject, WordsAt, NamesFrom;
    ghost var node := RawObject(c, off).value;
    var o := OpenObject(c, off).value;
    var i := NameIndex(c, o.n, o.noffsets, name, node.names);
    if i.None? {
      return None;
    }
    IndexOfAt(node.names, i.value);
    WordOf(c, o.voffsets, o.n, i.value);
    return Some(I32(c, o.voffsets + 4 * i.value));
  }

  lemma PatchTables(c: Bytes, at: int)
    requires PatchAt(c, at).Some?
    ensures at + 5 <= |c| && 0 <= at && PatchAt(c, at).value.full == U32(c, at + 1)
    ensures VarintAt(c, at + 5).Some? && VarintAt(c, VarintAt(c, at + 5).value.1).Some?
    ensures var p, changed := PatchAt(c, at).value, VarintAt(c, VarintAt(c, at + 5).value.1).value;
            && changed.0 == |p.names| && WordsAt(c, changed.1, changed.0) == Some(p.noffs)
            && WordsAt(c, changed.1 + 4 * changed.0, changed.0) == Some(p.voffs)
            && NamesFrom(c, p.noffs) == Some(p.names)
  {
  }

  lemma OverlayIs(c: Bytes, at: int)
    requires OverlayAt(c, at).Some?
    ensures PatchAt(c, at).Some? && RawObject(c, PatchAt(c, at).value.full).Some?
    ensures var p, o := PatchAt(c, at).value, RawObject(c, PatchAt(c, at).value.full).value;
            OverlayAt(c, at).value == ListedObject(p.len, Merged(SlotMap(o.names, o.noffs, o.voffs),
                                                                 SlotMap(p.names, p.noffs, p.voffs)))
  {
    hide PatchAt, RawObject, Merged, SlotMap, ListedObject;
  }

  /** What a patched object says of a name: the change if there is one, else
      whatever the object underneath says. */
  lemma PatchedLookup(c: Bytes, at: int, name: Bytes)
    requires OverlayAt(c, at).Some?
    ensures PatchAt(c, at).Some? && RawObject(c, PatchAt(c, at).value.full).Some?
    ensures var p, o := PatchAt(c, at).value, RawObject(c, PatchAt(c, at).value.full).value;
            ValueOffset(OverlayAt(c, at).value, name) ==
              if name !in p.names then ValueOffset(o, name)
              else if p.voffs[IndexOf(p.names, name)] == REMOVED then None
              else Some(p.voffs[IndexOf(p.names, name)])
  {
    OverlayIs(c, at);
    hide OverlayAt, PatchAt, RawObject;
    var p := PatchAt(c, at).value;
    var o := RawObject(c, p.full).value;
    ListedLookup(p.len, Merged(SlotMap(o.names, o.noffs, o.voffs), SlotMap(p.names, p.noffs, p.voffs)), name);
  }

  /** ObjectValueOffset of a patched object. */
  method PatchedValueOffset(c: Bytes, at: int, name: Bytes) returns (r: Option<int>)
    requires OverlayAt(c, at).Some?
    requires Ascending(PatchAt(c, at).value.names) && Ascending(RawObject(c, PatchAt(c, at).value.full).value.names)
    ensures r == ValueOffset(OverlayAt(c, at).value, name)
  {
    hide *;
    PatchedLookup(c, at, name);
    PatchTables(c, at);
    ghost var p := PatchAt(c, at).value;
    var full := U32(c, at + 1);
    var len := VarintAt(c, at + 5).value;
    var changed := VarintAt(c, len.1).value;
    var i := NameIndex(c, changed.0, changed.1, name, p.names);
    if i.None? {
      r := SnapshotValueOffset(c, full, name);
      return;
    }
    IndexOfAt(p.names, i.value);
    WordOf(c, changed.1 + 4 * changed.0, changed.0, i.value);
    var voff := I32(c, changed.1 + 4 * changed.0 + 4 * i.value);
    return if voff == REMOVED then None else Some(voff);
  }

  /** newDeltaObjectReader and ObjectValueOffset: a lookup through the overrides. */
  method DeltaValueOffset(r: DeltaReader, off: int, name: Bytes) returns (voff: Option<int>)
    requires r.Valid() && off >= 0 && SortedAt(r.View(), off)
    requires NodeAt(r.View(), off).Some? && NodeAt(r.View(), off).value.NObj?
    requires var n := NodeAt(r.View(), off).value; |n.names| == |n.voffs|
    ensures voff == ValueOffset(NodeAt(r.View(), off).value, name)
  {
    var at := r.DeltaOffset(off);
    hide PatchAt, RawObject;
    if 0 <= at < |r.content| && r.content[at] == T_OBJECT_PATCH {
      voff := PatchedValueOffset(r.content, at, name);
    } else {
      voff := SnapshotValueOffset(r.content, at, name);
    }
  }

  /** A lookup in a document finds exactly the names of the object, each with the
      offset of its own value. */
  lemma LookupAgrees(v: View, off: int, names: seq<Bytes>, vals: seq<Tree>, name: Bytes)
    requires Denotes(v, off, Obj(names, vals)) && Ascending(names) && |names| == |vals|
    ensures var n := NodeAt(v, off).value;
            && (ValueOffset(n, name).Some? <==> name in names)
            && (forall i | 0 <= i < |names| && names[i] == name ::
                  ValueOffset(n, name).Some? && Denotes(v, ValueOffset(n, name).value, vals[i]))
  {
    forall i | 0 <= i < |names| && names[i] == name
      ensures Denotes(v, NodeAt(v, off).value.voffs[IndexOf(names, name)], vals[i])
    {
      IndexOfAt(names, i);
      assert Obj(names, vals).Kids()[i] == vals[i];
    }
  }

  // ---- The merged listing of a patched object ----

  lemma SlotMapStep(names: seq<Bytes>, noffs: seq<int>, voffs: seq<int>, i: nat)
    requires i < |names| == |noffs| == |voffs|
    ensures SlotMap(names[..i + 1], noffs[..i + 1], voffs[..i + 1])
         == SlotMap(names[..i], noffs[..i], voffs[..i])[names[i] := Slot(noffs[i], voffs[i])]
  {
    assert names[..i + 1][..i] == names[..i];
  }

  lemma MergedStep(base: map<Bytes, Slot>, changes: map<Bytes, Slot>, name: Bytes, s: Slot)
    ensures Merged(base, changes[name := s]) ==
            if s.value == REMOVED then Merged(base, changes) - {name} else Merged(base, changes)[name := s]
  {
  }

  /** The slots of the object underneath. */
  method FillSlots(names: seq<Bytes>, noffs: seq<int>, voffs: seq<int>) returns (m: map<Bytes, Slot>)
    requires |names| == |noffs| == |voffs|
    ensures m == SlotMap(names, noffs, voffs)
  {
    m := map[];
    for i := 0 to |names|
      invariant m == SlotMap(names[..i], noffs[..i], voffs[..i])
    {
      SlotMapStep(names, noffs, voffs, i);
      m := m[names[i] := Slot(noffs[i], voffs[i])];
    }
    assert names[..|names|] == names && noffs[..|names|] == noffs && voffs[..|names|] == voffs;
  }

  /** The changes of a patch, applied one after the other. */
  method ApplyChanges(base: map<Bytes, Slot>, names: seq<Bytes>, noffs: seq<int>, voffs: seq<int>)
    returns (m: map<Bytes, Slot>)
    requires |names| == |noffs| == |voffs|
    ensures m == Merged(base, SlotMap(names, noffs, voffs))
  {
    m := base;
    for i := 0 to |names|
      invariant m == Merged(base, SlotMap(names[..i], noffs[..i], voffs[..i]))
    {
      hide SlotMap, Merged;
      SlotMapStep(names, noffs, voffs, i);
      MergedStep(base, SlotMap(names[..i], noffs[..i], voffs[..i]), names[i], Slot(noffs[i], voffs[i]));
      if voffs[i] == REMOVED {
        m := m - {names[i]};
      } else {
        m := m[names[i] := Slot(noffs[i], voffs[i])];
      }
    }
    assert names[..|names|] == names && noffs[..|names|] == noffs && voffs[..|names|] == voffs;
  }

  lemma ListedIs(len: int, m: map<Bytes, Slot>, n: Node)
    requires n.NObj? && n.len == len && n.names == Sorted(m.Keys) && |n.noffs| == |n.voffs| == |n.names|
    requires forall i | 0 <= i < |n.names| ::
               n.names[i] in m && n.noffs[i] == m[n.names[i]].name && n.voffs[i] == m[n.names[i]].value
    ensures n == ListedObject(len, m)
  {
  }

  /** objectNameOffsetsValueOffsets of a patched object: the slots underneath,
      updated with each change, and listed in name order. */
  method PatchedListing(c: Bytes, at: int) returns (n: Node)
    requires OverlayAt(c, at).Some?
    ensures n == OverlayAt(c, at).value
    ensures n.NObj? && forall i | 0 <= i < |n.names| - 1 :: Precedes(n.names[i], n.names[i + 1])
  {
    hide Precedes;
    hide OverlayAt, PatchAt, RawObject, SlotMap, Merged, ListedObject;
    OverlayIs(c, at);
    var p := PatchAt(c, at).value;
    var o := RawObject(c, p.full).value;
    var base := FillSlots(o.names, o.noffs, o.voffs);
    var m := ApplyChanges(base, p.names, p.noffs, p.voffs);
    var names := SortNames(m.Keys);
    n := NObj(p.len, names,
              seq(|names|, i requires 0 <= i < |names| && names[i] in m => m[names[i]].name),
              seq(|names|, i requires 0 <= i < |names| && names[i] in m => m[names[i]].value));
    ListedIs(p.len, m, n);
  }

  lemma OverlayNone(c: Bytes, at: int)
    ensures OverlayAt(c, at).Some? <==> PatchAt(c, at).Some? && RawObject(c, PatchAt(c, at).value.full).Some?
  {
    hide PatchAt, RawObject, ListedObject, Merged, SlotMap;
  }

  /** Reading one element through a view: its type decides what is read. */
  method ReadNode(v: View, off: int) returns (r: Option<Node>)
    ensures r == NodeAt(v, off)
  {
    hide PatchAt, RawObject, RawNode, OverlayAt;
    if off < 0 {
      var s := Embedded(off);
      return if s.None? then None else Some(NLeaf(s.value));
    }
    var at := Resolve(v, off);
    if v.Delta? && 0 <= at < |v.content| && v.content[at] == T_OBJECT_PATCH {
      OverlayNone(v.content, at);
      var p := PatchAt(v.content, at);
      if p.None? || RawObject(v.content, p.value.full).None? {
        return None;
      }
      var n := PatchedListing(v.content, at);
      return Some(n);
    }
    return RawNode(v.content, at);
  }

  /** Reading a document's element. */
  method ReadDenoted(v: View, off: int, ghost t: Tree) returns (n: Node)
    requires Denotes(v, off, t)
    ensures NodeAt(v, off) == Some(n) && Matches(n, t) && DenotesAll(v, n.Slots(), t.Kids())
  {
    KidsDenoted(v, off, t);
    var r := ReadNode(v, off);
    n := r.value;
  }
}
