/** How a delta writes out a document: every object in full, strings and numbers
    interned within the delta. */
module DeltaValues {
  import opened ByteCodec
  import opened Names
  import opened Trees
  import opened Reader
  import opened SnapshotFormat

  /** writeCachedString: strings of a delta keep their text, even integers. */
  function CachedString(s: Bytes, at: int, cache: Cache): Written {
    if s in cache.strs && cache.strs[s] != at then Written(cache.strs[s], [], cache)
    else Written(at, ScalarBytes(Str(s)), cache.(strs := cache.strs[s := at]))
  }

  /** The names of an object as cached strings; a name's offset skips the type byte. */
  function CachedNames(names: seq<Bytes>, n: nat, at: int, cache: Cache): (r: WrittenAll)
    requires n <= |names|
    ensures |r.offs| == n
  {
    if n == 0 then WrittenAll([], [], cache)
    else
      var before := CachedNames(names, n - 1, at, cache);
      var last := CachedString(names[n - 1], at + |before.out|, before.cache);
      WrittenAll(before.offs + [last.off + 1], before.out + last.out, last.cache)
  }

  /** reserialize: the copy of a document that starts at offset `at`. */
  function Copy(t: Tree, at: int, embed: bool, cache: Cache): Written
    decreases t
  {
    match t
    case Leaf(s) => CopyLeaf(s, at, embed, cache)
    case Arr(elems) =>
      var head := [T_ARRAY] + PutVarint(|elems|);
      var kids := CopyUpto(elems, |elems|, at + |head| + 4 * |elems|, cache);
      Written(at, head + Words(kids.offs) + kids.out, kids.cache)
    case Obj(names, vals) =>
      var head := [T_OBJECT_FULL] + PutVarint(|names|);
      var named := CachedNames(names, |names|, at + |head| + 4 * |names| + 4 * |vals|, cache);
      var kids := CopyUpto(vals, |vals|, at + |head| + 4 * |names| + 4 * |vals| + |named.out|, named.cache);
      Written(at, head + Words(named.offs) + Words(kids.offs) + named.out + kids.out, kids.cache)
  }

  function CopyLeaf(s: Scalar, at: int, embed: bool, cache: Cache): Written {
    if s.Str? then CachedString(s.text, at, cache)
    else if s.Num? then WriteNumber(s.digits, at, cache)
    else if Embeds(s) && embed then Written(-(Tag(s) as int), [], cache)
    else Written(at, ScalarBytes(s), cache)
  }

  function CopyUpto(ts: seq<Tree>, n: nat, at: int, cache: Cache): (r: WrittenAll)
    requires n <= |ts|
    ensures |r.offs| == n
    decreases ts, n
  {
    if n == 0 then WrittenAll([], [], cache)
    else
      var before := CopyUpto(ts, n - 1, at, cache);
      var last := Copy(ts[n - 1], at + |before.out|, true, before.cache);
      WrittenAll(before.offs + [last.off], before.out + last.out, last.cache)
  }

  // ---- The cache of a delta describes only what the delta holds ----

  ghost predicate DeltaCacheOK(cache: Cache, c: Bytes, slen: int) {
    && (forall s | s in cache.strs ::
          slen < cache.strs[s] < TWO_31 && RawNode(c, cache.strs[s]) == Some(NLeaf(Str(s))))
    && (forall s | s in cache.nums ::
          slen < cache.nums[s] < TWO_31 && RawNode(c, cache.nums[s]) == Some(NLeaf(Num(s))))
  }

  lemma DeltaCacheExtends(cache: Cache, c: Bytes, d: Bytes, slen: int)
    requires 0 <= slen && c <= d && DeltaCacheOK(cache, c, slen)
    ensures DeltaCacheOK(cache, d, slen)
  {
    forall s | s in cache.strs ensures RawNode(d, cache.strs[s]) == RawNode(c, cache.strs[s]) {
      RawNodeExtends(c, d, cache.strs[s]);
    }
    forall s | s in cache.nums ensures RawNode(d, cache.nums[s]) == RawNode(c, cache.nums[s]) {
      RawNodeExtends(c, d, cache.nums[s]);
    }
  }

  /** Offsets in the delta are beyond the reach of any override. */
  lemma BeyondOverrides(d: Bytes, slen: int, over: map<int, int>, lookups: bool, off: int, n: Node)
    requires 0 <= slen < off && RawNode(d, off) == Some(n)
    ensures NodeAt(Delta(d, slen, over, lookups), off) == Some(n) && Searchable(Delta(d, slen, over, lookups), off)
  {
    hide RawNode, PatchAt, OverlayAt;
    RawIsNoPatch(d, off);
  }

  ghost predicate CopyOK(r: Written, t: Tree, c: Bytes, v: View)
    requires v.Delta?
  {
    IsInt32(r.off) && Denotes(v, r.off, t) && DeltaCacheOK(r.cache, c + r.out, v.slen)
  }

  lemma CopyScalarCorrect(s: Scalar, r: Written, c: Bytes, v: View)
    requires v.Delta? && Proper(Leaf(s)) && 0 <= v.slen < |c| && c + r.out <= v.content && |v.content| < TWO_31
    requires r.off == |c| && r.out == ScalarBytes(s)
    ensures NodeAt(v, r.off) == Some(NLeaf(s)) && RawNode(c + r.out, r.off) == Some(NLeaf(s))
  {
    WriteScalarCorrect(s, r, c, v.content);
  }

  lemma CachedStringCorrect(s: Bytes, cache: Cache, c: Bytes, v: View)
    requires v.Delta? && |s| < TWO_31 && 0 <= v.slen < |c| && DeltaCacheOK(cache, c, v.slen)
    requires c + CachedString(s, |c|, cache).out <= v.content && |v.content| < TWO_31
    ensures var r := CachedString(s, |c|, cache);
            && v.slen < r.off < TWO_31 && RawNode(v.content, r.off) == Some(NLeaf(Str(s)))
            && DeltaCacheOK(r.cache, c + r.out, v.slen)
  {
    var r := CachedString(s, |c|, cache);
    DeltaCacheExtends(cache, c, c + r.out, v.slen);
    hide RawNode, ScalarBytes;
    if s in cache.strs && cache.strs[s] != |c| {
      RawNodeExtends(c, v.content, r.off);
    } else {
      CopyScalarCorrect(Str(s), r, c, v);
      RawNodeExtends(c + r.out, v.content, r.off);
    }
  }

  lemma CachedNumberCorrect(s: Bytes, cache: Cache, c: Bytes, v: View)
    requires v.Delta? && |s| < TWO_31 && 0 <= v.slen < |c| && DeltaCacheOK(cache, c, v.slen)
    requires c + WriteNumber(s, |c|, cache).out <= v.content && |v.content| < TWO_31
    ensures var r := WriteNumber(s, |c|, cache);
            && v.slen < r.off < TWO_31 && RawNode(v.content, r.off) == Some(NLeaf(Num(s)))
            && DeltaCacheOK(r.cache, c + r.out, v.slen)
  {
    var r := WriteNumber(s, |c|, cache);
    DeltaCacheExtends(cache, c, c + r.out, v.slen);
    hide RawNode, ScalarBytes;
    if s in cache.nums && cache.nums[s] != |c| {
      RawNodeExtends(c, v.content, r.off);
    } else {
      CopyScalarCorrect(Num(s), r, c, v);
      RawNodeExtends(c + r.out, v.content, r.off);
    }
  }

  lemma CopyLeafCorrect(s: Scalar, embed: bool, cache: Cache, c: Bytes, v: View)
    requires v.Delta? && Proper(Leaf(s)) && 0 <= v.slen < |c| && DeltaCacheOK(cache, c, v.slen)
    requires c + CopyLeaf(s, |c|, embed, cache).out <= v.content && |v.content| < TWO_31
    ensures CopyOK(CopyLeaf(s, |c|, embed, cache), Leaf(s), c, v)
  {
    var r := CopyLeaf(s, |c|, embed, cache);
    hide RawNode, ScalarBytes, CachedString, WriteNumber, DeltaCacheOK;
    if s.Str? {
      CachedStringCorrect(s.text, cache, c, v);
      BeyondOverrides(v.content, v.slen, v.over, v.lookups, r.off, NLeaf(s));
    } else if s.Num? {
      CachedNumberCorrect(s.digits, cache, c, v);
      BeyondOverrides(v.content, v.slen, v.over, v.lookups, r.off, NLeaf(s));
    } else if Embeds(s) && embed {
      assert c + r.out == c;
    } else {
      CopyScalarCorrect(s, r, c, v);
      DeltaCacheExtends(cache, c, c + r.out, v.slen);
    }
  }

  // ---- The names of a copied object ----

  /** The offsets are those of the names' text in `d`. */
  ghost predicate NamesStand(d: Bytes, offs: seq<int>, names: seq<Bytes>)
    requires |offs| <= |names|
  {
    AllInt32(offs) && forall i | 0 <= i < |offs| :: StringAt(d, offs[i]) == Some(names[i])
  }

  lemma NamesStandOneMore(d: Bytes, offs: seq<int>, off: int, names: seq<Bytes>)
    requires |offs| < |names| && NamesStand(d, offs, names)
    requires IsInt32(off) && StringAt(d, off) == Some(names[|offs|])
    ensures NamesStand(d, offs + [off], names)
  {
    hide StringAt;
  }

  lemma CachedNamesStep(names: seq<Bytes>, n: nat, at: int, cache: Cache)
    requires 0 < n <= |names|
    ensures var before := CachedNames(names, n - 1, at, cache);
            var last := CachedString(names[n - 1], at + |before.out|, before.cache);
            CachedNames(names, n, at, cache)
            == WrittenAll(before.offs + [last.off + 1], before.out + last.out, last.cache)
  {
    hide CachedString;
  }

  lemma CachedNamesNone(names: seq<Bytes>, cache: Cache, c: Bytes, v: View)
    requires v.Delta? && DeltaCacheOK(cache, c, v.slen)
    ensures var r := CachedNames(names, 0, |c|, cache);
            NamesStand(v.content, r.offs, names) && DeltaCacheOK(r.cache, c + r.out, v.slen)
  {
    hide DeltaCacheOK;
    assert c + [] == c;
  }

  lemma {:induction false} CachedNamesCorrect(names: seq<Bytes>, n: nat, cache: Cache, c: Bytes, v: View)
    requires v.Delta? && n <= |names| && 0 <= v.slen < |c| && DeltaCacheOK(cache, c, v.slen)
    requires forall i | 0 <= i < |names| :: |names[i]| < TWO_31
    requires c + CachedNames(names, n, |c|, cache).out <= v.content && |v.content| < TWO_31
    ensures var r := CachedNames(names, n, |c|, cache);
            NamesStand(v.content, r.offs, names) && DeltaCacheOK(r.cache, c + r.out, v.slen)
  {
    hide *;
    if n == 0 {
      CachedNamesNone(names, cache, c, v);
      return;
    }
    CachedNamesStep(names, n, |c|, cache);
    var r := CachedNames(names, n, |c|, cache);
    var before := CachedNames(names, n - 1, |c|, cache);
    var last := CachedString(names[n - 1], |c| + |before.out|, before.cache);
    var c' := c + before.out;
    assert c + r.out == c' + last.out;
    CachedNamesCorrect(names, n - 1, cache, c, v);
    CachedStringCorrect(names[n - 1], before.cache, c', v);
    StringBehindType(v.content, last.off, names[n - 1]);
    Int32Below(last.off + 1, |v.content|);
    NamesStandOneMore(v.content, before.offs, last.off + 1, names);
  }

  lemma Int32Below(off: int, bound: int)
    requires 0 <= off <= bound < TWO_31
    ensures IsInt32(off)
  {
  }

  lemma StringBehindType(c: Bytes, off: int, s: Bytes)
    requires RawNode(c, off) == Some(NLeaf(Str(s)))
    ensures StringAt(c, off + 1) == Some(s) && 0 <= off && off + 1 <= |c|
  {
  }

  // ---- Containers ----

  /** Several elements of a copied document. */
  ghost predicate CopiedAll(v: View, offs: seq<int>, ts: seq<Tree>)
    requires |offs| <= |ts|
  {
    AllInt32(offs) && forall i | 0 <= i < |offs| :: Denotes(v, offs[i], ts[i])
  }

  lemma CopiedOneMore(v: View, offs: seq<int>, off: int, ts: seq<Tree>)
    requires |offs| < |ts| && CopiedAll(v, offs, ts)
    requires IsInt32(off) && Denotes(v, off, ts[|offs|])
    ensures CopiedAll(v, offs + [off], ts)
  {
    hide Denotes;
  }

  /** A container in the delta, put together from its header and its elements. */
  lemma CopiedContainer(t: Tree, n: Node, head: Bytes, kids: WrittenAll, c: Bytes, v: View)
    requires v.Delta? && !t.Leaf? && 0 <= v.slen < |c| < TWO_31
    requires RawNode(v.content, |c|) == Some(n) && Matches(n, t) && n.Slots() == kids.offs && |kids.offs| == |t.Kids()|
    requires CopiedAll(v, kids.offs, t.Kids()) && DeltaCacheOK(kids.cache, c + head + kids.out, v.slen)
    ensures CopyOK(Written(|c|, head + kids.out, kids.cache), t, c, v)
  {
    hide DeltaCacheOK;
    BeyondOverrides(v.content, v.slen, v.over, v.lookups, |c|, n);
    assert c + (head + kids.out) == c + head + kids.out;
  }

  lemma CopiedArray(elems: seq<Tree>, head: Bytes, kids: WrittenAll, c: Bytes, v: View)
    requires v.Delta? && |elems| == |kids.offs| < TWO_31 && 0 <= v.slen < |c| < TWO_31
    requires head == [T_ARRAY] + PutVarint(|elems|) + Words(kids.offs) && c + head <= v.content
    requires CopiedAll(v, kids.offs, elems) && DeltaCacheOK(kids.cache, c + head + kids.out, v.slen)
    ensures CopyOK(Written(|c|, head + kids.out, kids.cache), Arr(elems), c, v)
  {
    AtAppended(c, head, v.content);
    ArrayReadBack(v.content, |c|, kids.offs);
    hide DeltaCacheOK, Denotes, At, RawNode, Words;
    CopiedContainer(Arr(elems), NArr(kids.offs), head, kids, c, v);
  }

  /** The header of a copied object: its names' offsets, its values' offsets, and
      whatever names it had to write. */
  lemma CopiedObject(names: seq<Bytes>, noffs: seq<int>, vals: seq<Tree>, head: Bytes, w: Bytes, x: Bytes, named: Bytes,
                     kids: WrittenAll, c: Bytes, v: View)
    requires v.Delta? && |names| == |vals| == |kids.offs| == |noffs| < TWO_31 && 0 <= v.slen < |c| < TWO_31
    requires head == [T_OBJECT_FULL] + PutVarint(|names|) && w == Words(noffs) && x == Words(kids.offs)
    requires c + (head + w + x + named) <= v.content && NamesStand(v.content, noffs, names)
    requires CopiedAll(v, kids.offs, vals)
    requires DeltaCacheOK(kids.cache, c + (head + w + x + named) + kids.out, v.slen)
    ensures CopyOK(Written(|c|, head + w + x + named + kids.out, kids.cache), Obj(names, vals), c, v)
  {
    hide DeltaCacheOK, Denotes, RawNode, Words, PutVarint, At, StringAt, NamesFrom;
    var whole := head + w + x + named;
    var d, at := v.content, |c|;
    AtAppended(c, whole, d);
    AtParts(d, at, whole, head, w, x, named);
    NamesAreFrom(d, noffs, names);
    FullObjectFrom(d, at, names, noffs, kids.offs, head, w, x);
    CopiedContainer(Obj(names, vals), NObj(|names|, names, noffs, kids.offs), whole, kids, c, v);
  }

  lemma FullObjectFrom(d: Bytes, at: int, names: seq<Bytes>, noffs: seq<int>, voffs: seq<int>, head: Bytes, w: Bytes, x: Bytes)
    requires |names| == |noffs| == |voffs| < TWO_31 && AllInt32(noffs) && AllInt32(voffs)
    requires head == [T_OBJECT_FULL] + PutVarint(|names|) && w == Words(noffs) && x == Words(voffs)
    requires At(d, at, head) && At(d, at + |head|, w) && At(d, at + |head| + |w|, x)
    requires NamesFrom(d, noffs) == Some(names)
    ensures RawNode(d, at) == Some(NObj(|names|, names, noffs, voffs))
  {
    FullHeadWords(names, noffs, voffs, d, at, head, w, x, NameBytes(names, |names|));
  }

  // ---- A copied document reads back as the document ----

  lemma CopyUptoNone(ts: seq<Tree>, cache: Cache, c: Bytes, v: View)
    requires v.Delta? && DeltaCacheOK(cache, c, v.slen)
    ensures var r := CopyUpto(ts, 0, |c|, cache);
            CopiedAll(v, r.offs, ts) && DeltaCacheOK(r.cache, c + r.out, v.slen)
  {
    hide DeltaCacheOK;
    assert c + [] == c;
  }

  lemma CopyUptoStep(ts: seq<Tree>, n: nat, at: int, cache: Cache)
    requires 0 < n <= |ts|
    ensures var before := CopyUpto(ts, n - 1, at, cache);
            var last := Copy(ts[n - 1], at + |before.out|, true, before.cache);
            CopyUpto(ts, n, at, cache) == WrittenAll(before.offs + [last.off], before.out + last.out, last.cache)
  {
    hide Copy;
  }

  lemma CopyArrayParts(elems: seq<Tree>, at: int, embed: bool, cache: Cache) returns (kids: WrittenAll, head: Bytes)
    ensures |kids.offs| == |elems| && head == [T_ARRAY] + PutVarint(|elems|) + Words(kids.offs)
    ensures kids == CopyUpto(elems, |elems|, at + |head|, cache)
    ensures Copy(Arr(elems), at, embed, cache) == Written(at, head + kids.out, kids.cache)
  {
    hide Words, PutVarint, CopyUpto;
    kids := CopyUpto(elems, |elems|, at + 1 + |PutVarint(|elems|)| + 4 * |elems|, cache);
    head := [T_ARRAY] + PutVarint(|elems|) + Words(kids.offs);
  }

  lemma CopyObjectParts(names: seq<Bytes>, vals: seq<Tree>, at: int, embed: bool, cache: Cache)
    returns (named: WrittenAll, kids: WrittenAll, head: Bytes, w: Bytes, x: Bytes)
    requires |names| == |vals|
    ensures |named.offs| == |kids.offs| == |names| && head == [T_OBJECT_FULL] + PutVarint(|names|)
    ensures w == Words(named.offs) && x == Words(kids.offs)
    ensures named == CachedNames(names, |names|, at + |head + w + x|, cache)
    ensures kids == CopyUpto(vals, |vals|, at + |head + w + x + named.out|, named.cache)
    ensures Copy(Obj(names, vals), at, embed, cache) == Written(at, head + w + x + named.out + kids.out, kids.cache)
  {
    hide Words, PutVarint, CopyUpto, CachedNames;
    head := [T_OBJECT_FULL] + PutVarint(|names|);
    var start := at + |head| + 4 * |names| + 4 * |vals|;
    named := CachedNames(names, |names|, start, cache);
    kids := CopyUpto(vals, |vals|, start + |named.out|, named.cache);
    w, x := Words(named.offs), Words(kids.offs);
  }

  /** The copy of a document, put at the end of a delta, reads back as the document
      whatever the overrides are and whatever is written after it. */
  lemma {:induction false} CopyCorrect(t: Tree, embed: bool, cache: Cache, c: Bytes, v: View)
    requires v.Delta? && Proper(t) && 0 <= v.slen < |c| && DeltaCacheOK(cache, c, v.slen)
    requires c + Copy(t, |c|, embed, cache).out <= v.content && |v.content| < TWO_31
    ensures CopyOK(Copy(t, |c|, embed, cache), t, c, v)
    decreases t
  {
    match t
    case Leaf(s) => CopyLeafCorrect(s, embed, cache, c, v);
    case Arr(elems) => CopyArrayCorrect(elems, embed, cache, c, v);
    case Obj(names, vals) => CopyObjectCorrect(names, vals, embed, cache, c, v);
  }

  lemma {:induction false} CopyArrayCorrect(elems: seq<Tree>, embed: bool, cache: Cache, c: Bytes, v: View)
    requires v.Delta? && |elems| < TWO_31 && forall i | 0 <= i < |elems| :: Proper(elems[i])
    requires 0 <= v.slen < |c| && DeltaCacheOK(cache, c, v.slen)
    requires c + Copy(Arr(elems), |c|, embed, cache).out <= v.content && |v.content| < TWO_31
    ensures CopyOK(Copy(Arr(elems), |c|, embed, cache), Arr(elems), c, v)
    decreases elems, |elems| + 1
  {
    hide *;
    var kids, head := CopyArrayParts(elems, |c|, embed, cache);
    assert c + (head + kids.out) == c + head + kids.out;
    DeltaCacheExtends(cache, c, c + head, v.slen);
    CopyUptoCorrect(elems, |elems|, cache, c + head, v);
    CopiedArray(elems, head, kids, c, v);
  }

  lemma {:induction false} CopyObjectCorrect(names: seq<Bytes>, vals: seq<Tree>, embed: bool, cache: Cache, c: Bytes, v: View)
    requires v.Delta? && |names| == |vals| < TWO_31 && forall i | 0 <= i < |vals| :: Proper(vals[i])
    requires forall i | 0 <= i < |names| :: |names[i]| < TWO_31
    requires 0 <= v.slen < |c| && DeltaCacheOK(cache, c, v.slen)
    requires c + Copy(Obj(names, vals), |c|, embed, cache).out <= v.content && |v.content| < TWO_31
    ensures CopyOK(Copy(Obj(names, vals), |c|, embed, cache), Obj(names, vals), c, v)
    decreases vals, |vals| + 1
  {
    hide *;
    var named, kids, head, w, x := CopyObjectParts(names, vals, |c|, embed, cache);
    var front := head + w + x;
    assert c + (front + named.out) == c + front + named.out;
    assert c + (front + named.out + kids.out) == c + (front + named.out) + kids.out;
    DeltaCacheExtends(cache, c, c + front, v.slen);
    CachedNamesCorrect(names, |names|, cache, c + front, v);
    CopyUptoCorrect(vals, |vals|, named.cache, c + (front + named.out), v);
    CopiedObject(names, named.offs, vals, head, w, x, named.out, kids, c, v);
  }

  lemma {:induction false} CopyUptoCorrect(ts: seq<Tree>, n: nat, cache: Cache, c: Bytes, v: View)
    requires v.Delta? && n <= |ts| && forall i | 0 <= i < |ts| :: Proper(ts[i])
    requires 0 <= v.slen < |c| && DeltaCacheOK(cache, c, v.slen)
    requires c + CopyUpto(ts, n, |c|, cache).out <= v.content && |v.content| < TWO_31
    ensures var r := CopyUpto(ts, n, |c|, cache);
            CopiedAll(v, r.offs, ts) && DeltaCacheOK(r.cache, c + r.out, v.slen)
    decreases ts, n
  {
    hide *;
    if n == 0 {
      CopyUptoNone(ts, cache, c, v);
      return;
    }
    CopyUptoStep(ts, n, |c|, cache);
    var r := CopyUpto(ts, n, |c|, cache);
    var before := CopyUpto(ts, n - 1, |c|, cache);
    var last := Copy(ts[n - 1], |c| + |before.out|, true, before.cache);
    var c' := c + before.out;
    assert c + r.out == c' + last.out;
    CopyUptoCorrect(ts, n - 1, cache, c, v);
    CopyCorrect(ts[n - 1], true, before.cache, c', v);
    CopyParts(last, ts[n - 1], c', v);
    CopiedOneMore(v, before.offs, last.off, ts);
  }

  lemma CopyParts(r: Written, t: Tree, c: Bytes, v: View)
    requires v.Delta? && CopyOK(r, t, c, v)
    ensures IsInt32(r.off) && Denotes(v, r.off, t) && DeltaCacheOK(r.cache, c + r.out, v.slen)
  {
  }
}
