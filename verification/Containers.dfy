/** Where the containers of a snapshot lie. Scalars and name tables are shared
    between paths; an array or object has exactly one slot that points at it. */
module Containers {
  import opened ByteCodec
  import opened Trees
  import opened Reader

  ghost function SlotsAt(c: Bytes, off: int): seq<int> {
    var n := NodeAt(Snapshot(c), off);
    if n.None? then [] else n.value.Slots()
  }

  /** `k` is the offset of an array or object within the document at `off`. */
  ghost predicate Inside(c: Bytes, off: int, t: Tree, k: int)
    decreases t
  {
    !t.Leaf? && (k == off || exists i | 0 <= i < |t.Kids()| && i < |SlotsAt(c, off)| ::
                               Inside(c, SlotsAt(c, off)[i], t.Kids()[i], k))
  }

  /** No container below one of these elements is also below another. */
  ghost predicate Disjoint(c: Bytes, offs: seq<int>, ts: seq<Tree>)
    requires |offs| == |ts|
  {
    forall i, j, k | 0 <= i < j < |offs| && Inside(c, offs[i], ts[i], k) :: !Inside(c, offs[j], ts[j], k)
  }

  /** No container is reachable along two paths. */
  ghost predicate Apart(c: Bytes, off: int, t: Tree)
    decreases t
  {
    var slots := SlotsAt(c, off);
    && |slots| == |t.Kids()| && Disjoint(c, slots, t.Kids())
    && (forall i | 0 <= i < |t.Kids()| :: Apart(c, slots[i], t.Kids()[i]) && !Inside(c, slots[i], t.Kids()[i], off))
  }

  /** Every container of the document lies between `lo` and `hi`. */
  ghost predicate Spans(c: Bytes, off: int, t: Tree, lo: int, hi: int) {
    forall k | Inside(c, off, t, k) :: lo <= k < hi
  }

  /** The override keys of a delta are containers; scalars are never overridden. */
  lemma {:induction false} InsideIsContainer(c: Bytes, off: int, t: Tree, k: int)
    requires Denotes(Snapshot(c), off, t) && Inside(c, off, t, k)
    ensures k >= 0 && RawNode(c, k).Some? && !RawNode(c, k).value.NLeaf?
    decreases t
  {
    if k != off {
      var i :| 0 <= i < |t.Kids()| && i < |SlotsAt(c, off)| && Inside(c, SlotsAt(c, off)[i], t.Kids()[i], k);
      InsideIsContainer(c, SlotsAt(c, off)[i], t.Kids()[i], k);
    }
  }
}
