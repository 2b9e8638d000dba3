/** The snapshot writer: what bytes it appends for a document, and the proof that
    reading them back gives the document. */
module SnapshotFormat {
  import opened ByteCodec
  import opened Names
  import opened Trees
  import opened Reader
  import opened Containers

  /** Offsets of what has been written: object shapes, strings and numbers. */
  datatype Cache = Cache(types: map<seq<Bytes>, int>, strs: map<Bytes, int>, nums: map<Bytes, int>)

  const EMPTY := Cache(map[], map[], map[])

  /** An element's offset, the bytes appended for it, and the cache afterwards. */
  datatype Written = Written(off: int, out: Bytes, cache: Cache)

  datatype WrittenAll = WrittenAll(offs: seq<int>, out: Bytes, cache: Cache)

  function ScalarBytes(s: Scalar): (r: Bytes)
    ensures |r| >= 1 && r[0] == Tag(s)
  {
    [Tag(s)] + match s
               case Str(text) => PutString(text)
               case Int(i) => PutVarint(i)
               case Num(digits) => PutString(digits)
               case Blob(data) => PutString(data)
               case _ => []
  }

  function NameBytes(names: seq<Bytes>, n: nat): Bytes
    requires n <= |names|
  {
    if n == 0 then [] else NameBytes(names, n - 1) + PutString(names[n - 1])
  }

  function NameOffsets(names: seq<Bytes>, start: int): (r: seq<int>)
    ensures |r| == |names|
  {
    seq(|names|, i requires 0 <= i < |names| => start + |NameBytes(names, i)|)
  }

  /** A string is interned: a second copy is the offset of the first. */
  function WriteString(s: Bytes, at: int, cache: Cache): Written {
    if s in cache.strs && cache.strs[s] != at then Written(cache.strs[s], [], cache)
    else Written(at, ScalarBytes(StringScalar(s)), cache.(strs := cache.strs[s := at]))
  }

  function WriteNumber(s: Bytes, at: int, cache: Cache): Written {
    if s in cache.nums && cache.nums[s] != at then Written(cache.nums[s], [], cache)
    else Written(at, ScalarBytes(Num(s)), cache.(nums := cache.nums[s := at]))
  }

  /** serialize: `len` bytes have been written after the first `base`. Nested null,
      false and true take no bytes; their offset is the negated type tag. */
  function Write(t: Tree, base: int, len: nat, cache: Cache): Written
    decreases t
  {
    var at := base + len;
    match t
    case Leaf(s) =>
      if s.Str? then WriteString(s.text, at, cache)
      else if s.Int? then WriteString(Itoa(s.i), at, cache)
      else if s.Num? then WriteNumber(s.digits, at, cache)
      else if Embeds(s) && len > 0 then Written(-(Tag(s) as int), [], cache)
      else Written(at, ScalarBytes(s), cache)
    case Arr(elems) =>
      var head := [T_ARRAY] + PutVarint(|elems|);
      var kids := WriteUpto(elems, |elems|, base, len + |head| + 4 * |elems|, cache);
      Written(at, head + Words(kids.offs) + kids.out, kids.cache)
    case Obj(names, vals) =>
      if names in cache.types && cache.types[names] != at then
        var kids := WriteUpto(vals, |vals|, base, len + 5 + 4 * |vals|, cache);
        Written(at, [T_OBJECT_THIN] + Be32(cache.types[names]) + Words(kids.offs) + kids.out, kids.cache)
      else
        var head := [T_OBJECT_FULL] + PutVarint(|names|);
        var named := NameBytes(names, |names|);
        var start := |head| + 4 * |names| + 4 * |vals|;
        var kids := WriteUpto(vals, |vals|, base, len + start + |named|, cache.(types := cache.types[names := at]));
        Written(at, head + Words(NameOffsets(names, at + start)) + Words(kids.offs) + named + kids.out, kids.cache)
  }

  /** The first `n` of several elements, one after the other. */
  function WriteUpto(ts: seq<Tree>, n: nat, base: int, len: nat, cache: Cache): (r: WrittenAll)
    requires n <= |ts|
    ensures |r.offs| == n
    decreases ts, n
  {
    if n == 0 then WrittenAll([], [], cache)
    else
      var before := WriteUpto(ts, n - 1, base, len, cache);
      var last := Write(ts[n - 1], base, len + |before.out|, before.cache);
      WrittenAll(before.offs + [last.off], before.out + last.out, last.cache)
  }

  // ---- The cache describes what is in the buffer ----

  ghost predicate CacheOK(cache: Cache, c: Bytes) {
    && (forall s | s in cache.strs ::
          0 <= cache.strs[s] < TWO_31 && RawNode(c, cache.strs[s]) == Some(NLeaf(StringScalar(s))))
    && (forall s | s in cache.nums ::
          0 <= cache.nums[s] < TWO_31 && RawNode(c, cache.nums[s]) == Some(NLeaf(Num(s))))
    && (forall names | names in cache.types ::
          && 0 <= cache.types[names] < TWO_31 && NameTableAt(c, cache.types[names]).Some?
          && NameTableAt(c, cache.types[names]).value.names == names)
  }

  lemma CacheExtends(cache: Cache, c: Bytes, d: Bytes)
    requires c <= d && CacheOK(cache, c)
    ensures CacheOK(cache, d)
  {
    forall s | s in cache.strs ensures RawNode(d, cache.strs[s]) == RawNode(c, cache.strs[s]) {
      RawNodeExtends(c, d, cache.strs[s]);
    }
    forall s | s in cache.nums ensures RawNode(d, cache.nums[s]) == RawNode(c, cache.nums[s]) {
      RawNodeExtends(c, d, cache.nums[s]);
    }
    forall names | names in cache.types
      ensures NameTableAt(d, cache.types[names]) == NameTableAt(c, cache.types[names])
    {
      NameTableExtends(c, d, cache.types[names]);
    }
  }

  // ---- Reading back one element ----

  lemma ScalarReadBack(c: Bytes, off: int, s: Scalar)
    requires At(c, off, ScalarBytes(s)) && Proper(Leaf(s))
    ensures RawNode(c, off) == Some(NLeaf(s))
  {
    var w := ScalarBytes(s);
    var rest := w[1..];
    assert w == [Tag(s)] + rest;
    assert c[off] == w[0];
    hide PutVarint, PutString, VarintAt, StringAt, RawArray, RawObject;
    assert rest == match s
                   case Str(text) => PutString(text)
                   case Int(i) => PutVarint(i)
                   case Num(digits) => PutString(digits)
                   case Blob(data) => PutString(data)
                   case _ => [];
    AtSplit(c, off, [Tag(s)], rest);
    match s
    case Str(text) => StringReadBack(c, off + 1, text);
    case Int(i) => VarintReadBack(c, off + 1, i);
    case Num(digits) => StringReadBack(c, off + 1, digits);
    case Blob(data) => StringReadBack(c, off + 1, data);
    case _ =>
  }

  /** A container starts with its type and its number of elements. */
  lemma HeadReadBack(c: Bytes, off: int, tag: Byte, n: nat)
    requires n < TWO_31 && At(c, off, [tag] + PutVarint(n))
    ensures off < |c| && c[off] == tag
    ensures VarintAt(c, off + 1) == Some((n, off + 1 + |PutVarint(n)|))
  {
    AtSplit(c, off, [tag], PutVarint(n));
    assert c[off] == [tag][0];
    VarintReadBack(c, off + 1, n);
  }

  lemma ArrayReadBack(c: Bytes, off: int, offs: seq<int>)
    requires At(c, off, [T_ARRAY] + PutVarint(|offs|) + Words(offs))
    requires |offs| < TWO_31 && AllInt32(offs)
    ensures RawNode(c, off) == Some(NArr(offs))
  {
    var head := [T_ARRAY] + PutVarint(|offs|);
    var words := Words(offs);
    AtSplit(c, off, head, words);
    WordsReadBack(c, off + |head|, offs);
    HeadReadBack(c, off, T_ARRAY, |offs|);
  }

  lemma {:induction false} NameReadBack(c: Bytes, start: int, names: seq<Bytes>, n: nat, i: nat)
    requires i < n <= |names| && At(c, start, NameBytes(names, n))
    requires |names[i]| < TWO_31
    ensures StringAt(c, start + |NameBytes(names, i)|) == Some(names[i])
    ensures start <= start + |NameBytes(names, i)| < |c|
  {
    AtSplit(c, start, NameBytes(names, n - 1), PutString(names[n - 1]));
    if i == n - 1 {
      StringReadBack(c, start + |NameBytes(names, i)|, names[i]);
    } else {
      NameReadBack(c, start, names, n - 1, i);
    }
  }

  lemma NamesReadBack(c: Bytes, start: int, names: seq<Bytes>, named: Bytes)
    requires 0 <= start && |c| < TWO_31 && named == NameBytes(names, |names|) && At(c, start, named)
    requires forall i | 0 <= i < |names| :: |names[i]| < TWO_31
    ensures NamesFrom(c, NameOffsets(names, start)) == Some(names)
    ensures AllInt32(NameOffsets(names, start))
  {
    hide At, NameBytes, StringAt, NamesFrom;
    var noffs := NameOffsets(names, start);
    forall i | 0 <= i < |names| ensures StringAt(c, noffs[i]) == Some(names[i]) && IsInt32(noffs[i]) {
      NameReadBack(c, start, names, |names|, i);
    }
    NamesAreFrom(c, noffs, names);
  }

  lemma ThinObjectReadBack(c: Bytes, off: int, names: seq<Bytes>, voffs: seq<int>, full: int)
    requires |names| == |voffs| && AllInt32(voffs) && IsInt32(full)
    requires NameTableAt(c, full).Some? && NameTableAt(c, full).value.names == names
    requires At(c, off, [T_OBJECT_THIN] + Be32(full) + Words(voffs))
    ensures RawNode(c, off) == Some(NObj(|names|, names, NameTableAt(c, full).value.noffs, voffs))
  {
    AtSplit(c, off, [T_OBJECT_THIN] + Be32(full), Words(voffs));
    AtSplit(c, off, [T_OBJECT_THIN], Be32(full));
    assert c[off] == [T_OBJECT_THIN][0];
    Be32ReadBack(c, off + 1, full);
    WordsReadBack(c, off + 5, voffs);
  }

  // ---- Reading back a document ----

  function Reprs(ts: seq<Tree>, n: nat): (r: seq<Tree>)
    requires n <= |ts|
    ensures |r| == n
  {
    seq(n, i requires 0 <= i < n => Repr(ts[i]))
  }

  lemma ReprsOneMore(ts: seq<Tree>, n: nat)
    requires 0 < n <= |ts|
    ensures Reprs(ts, n) == Reprs(ts, n - 1) + [Repr(ts[n - 1])]
  {
  }

  /** Several elements, written one after the other between `lo` and `hi`. */
  ghost predicate Laid(d: Bytes, offs: seq<int>, ts: seq<Tree>, lo: int, hi: int)
    requires |offs| == |ts|
  {
    && AllInt32(offs) && Disjoint(d, offs, ts)
    && (forall i | 0 <= i < |offs| ::
          Denotes(Snapshot(d), offs[i], ts[i]) && Apart(d, offs[i], ts[i]) && Spans(d, offs[i], ts[i], lo, hi))
  }

  lemma LaidOneMore(d: Bytes, offs: seq<int>, ts: seq<Tree>, off: int, t: Tree, lo: int, mid: int, hi: int)
    requires |offs| == |ts| && lo <= mid <= hi
    requires Laid(d, offs, ts, lo, mid)
    requires IsInt32(off) && Denotes(Snapshot(d), off, t)
    requires Apart(d, off, t) && Spans(d, off, t, mid, hi)
    ensures Laid(d, offs + [off], ts + [t], lo, hi)
  {
  }

  lemma ContainerReadBack(d: Bytes, off: int, t: Tree, n: Node, lo: int, hi: int)
    requires !t.Leaf? && 0 <= off < lo <= hi
    requires RawNode(d, off) == Some(n) && Matches(n, t) && |n.Slots()| == |t.Kids()|
    requires Laid(d, n.Slots(), t.Kids(), lo, hi)
    ensures Denotes(Snapshot(d), off, t)
    ensures Apart(d, off, t) && Spans(d, off, t, off, hi)
  {
    assert SlotsAt(d, off) == n.Slots();
  }

  lemma LeafReadBack(d: Bytes, off: int, s: Scalar)
    requires NodeAt(Snapshot(d), off) == Some(NLeaf(s))
    ensures Denotes(Snapshot(d), off, Leaf(s))
    ensures Apart(d, off, Leaf(s)) && forall lo, hi :: Spans(d, off, Leaf(s), lo, hi)
  {
  }

  /** What the writer promises for one document written after `c` into `d`. */
  ghost predicate WrittenOK(r: Written, t: Tree, c: Bytes, d: Bytes) {
    && IsInt32(r.off) && Denotes(Snapshot(d), r.off, Repr(t))
    && Apart(d, r.off, Repr(t)) && Spans(d, r.off, Repr(t), |c|, |c| + |r.out|)
    && CacheOK(r.cache, c + r.out)
  }

  lemma WrittenParts(r: Written, t: Tree, c: Bytes, d: Bytes)
    requires WrittenOK(r, t, c, d)
    ensures IsInt32(r.off) && Denotes(Snapshot(d), r.off, Repr(t)) && Apart(d, r.off, Repr(t))
    ensures Spans(d, r.off, Repr(t), |c|, |c| + |r.out|) && CacheOK(r.cache, c + r.out)
  {
  }

  lemma WriteScalarCorrect(s: Scalar, r: Written, c: Bytes, d: Bytes)
    requires Proper(Leaf(s)) && c + r.out <= d && |d| < TWO_31
    requires r.off == |c| && r.out == ScalarBytes(s)
    ensures NodeAt(Snapshot(d), r.off) == Some(NLeaf(s))
    ensures RawNode(c + r.out, r.off) == Some(NLeaf(s))
  {
    AtAppended(c, r.out, d);
    AtAppended(c, r.out, c + r.out);
    ScalarReadBack(d, |c|, s);
    ScalarReadBack(c + r.out, |c|, s);
  }

  lemma WriteStringCorrect(s: Bytes, cache: Cache, c: Bytes, d: Bytes)
    requires |s| < TWO_31 && CacheOK(cache, c)
    requires c + WriteString(s, |c|, cache).out <= d && |d| < TWO_31
    ensures var r := WriteString(s, |c|, cache);
            IsInt32(r.off) && NodeAt(Snapshot(d), r.off) == Some(NLeaf(StringScalar(s))) && CacheOK(r.cache, c + r.out)
  {
    var r := WriteString(s, |c|, cache);
    CacheExtends(cache, c, c + r.out);
    if s in cache.strs && cache.strs[s] != |c| {
      RawNodeExtends(c, d, r.off);
    } else {
      WriteScalarCorrect(StringScalar(s), r, c, d);
    }
  }

  lemma WriteNumberCorrect(s: Bytes, cache: Cache, c: Bytes, d: Bytes)
    requires |s| < TWO_31 && CacheOK(cache, c)
    requires c + WriteNumber(s, |c|, cache).out <= d && |d| < TWO_31
    ensures var r := WriteNumber(s, |c|, cache);
            IsInt32(r.off) && NodeAt(Snapshot(d), r.off) == Some(NLeaf(Num(s))) && CacheOK(r.cache, c + r.out)
  {
    var r := WriteNumber(s, |c|, cache);
    CacheExtends(cache, c, c + r.out);
    if s in cache.nums && cache.nums[s] != |c| {
      RawNodeExtends(c, d, r.off);
    } else {
      WriteScalarCorrect(Num(s), r, c, d);
    }
  }

  lemma WriteLeafCorrect(s: Scalar, base: int, len: nat, cache: Cache, c: Bytes, d: Bytes)
    requires Proper(Leaf(s)) && 0 <= base && |c| == base + len && CacheOK(cache, c)
    requires c + Write(Leaf(s), base, len, cache).out <= d && |d| < TWO_31
    ensures WrittenOK(Write(Leaf(s), base, len, cache), Leaf(s), c, d)
  {
    hide CacheOK, RawNode, ScalarBytes, WriteString, WriteNumber, Itoa, Atoi, Denotes, Apart;
    var r := Write(Leaf(s), base, len, cache);
    if s.Str? {
      WriteStringCorrect(s.text, cache, c, d);
    } else if s.Int? {
      ItoaIsShort(s.i);
      ItoaRoundTrip(s.i);
      WriteStringCorrect(Itoa(s.i), cache, c, d);
    } else if s.Num? {
      WriteNumberCorrect(s.digits, cache, c, d);
    } else if Embeds(s) && len > 0 {
      assert c + r.out == c;
    } else {
      WriteScalarCorrect(s, r, c, d);
      CacheExtends(cache, c, c + r.out);
    }
    LeafReadBack(d, r.off, ScalarRepr(s));
  }

  /** The elements of a container whose header is `head`, appended to `c`. */
  ghost predicate KidsOK(kids: WrittenAll, ts: seq<Tree>, c: Bytes, head: Bytes, d: Bytes) {
    && |kids.offs| == |ts|
    && Laid(d, kids.offs, Reprs(ts, |ts|), |c| + |head|, |c| + |head| + |kids.out|)
    && CacheOK(kids.cache, c + (head + kids.out))
  }

  lemma ReprKids(t: Tree)
    ensures Repr(t).Kids() == Reprs(t.Kids(), |t.Kids()|) && |Repr(t).Kids()| == |t.Kids()| && (Repr(t).Leaf? <==> t.Leaf?)
  {
  }

  lemma ContainerCorrect(t: Tree, n: Node, head: Bytes, kids: WrittenAll, c: Bytes, d: Bytes)
    requires !t.Leaf? && head != [] && |c| < TWO_31
    requires RawNode(d, |c|) == Some(n) && Matches(n, Repr(t)) && n.Slots() == kids.offs
    requires KidsOK(kids, t.Kids(), c, head, d)
    ensures WrittenOK(Written(|c|, head + kids.out, kids.cache), t, c, d)
  {
    hide CacheOK, Denotes, Apart, Spans, RawNode, Laid, Matches, Repr, Reprs;
    ReprKids(t);
    ContainerReadBack(d, |c|, Repr(t), n, |c| + |head|, |c| + |head| + |kids.out|);
  }

  lemma ArrayCorrect(elems: seq<Tree>, head: Bytes, kids: WrittenAll, c: Bytes, d: Bytes)
    requires |elems| < TWO_31 && |kids.offs| == |elems| && |d| < TWO_31
    requires head == [T_ARRAY] + PutVarint(|elems|) + Words(kids.offs)
    requires c + head + kids.out <= d && KidsOK(kids, elems, c, head, d)
    ensures WrittenOK(Written(|c|, head + kids.out, kids.cache), Arr(elems), c, d)
  {
    AtAppended(c, head, d);
    ArrayReadBack(d, |c|, kids.offs);
    ContainerCorrect(Arr(elems), NArr(kids.offs), head, kids, c, d);
  }

  lemma ThinObjectCorrect(names: seq<Bytes>, vals: seq<Tree>, full: int, head: Bytes, kids: WrittenAll, c: Bytes, d: Bytes)
    requires |names| == |vals| == |kids.offs| && |d| < TWO_31 && IsInt32(full)
    requires NameTableAt(d, full).Some? && NameTableAt(d, full).value.names == names
    requires head == [T_OBJECT_THIN] + Be32(full) + Words(kids.offs)
    requires c + head + kids.out <= d && KidsOK(kids, vals, c, head, d)
    ensures WrittenOK(Written(|c|, head + kids.out, kids.cache), Obj(names, vals), c, d)
  {
    AtAppended(c, head, d);
    ThinObjectReadBack(d, |c|, names, kids.offs, full);
    ContainerCorrect(Obj(names, vals), RawNode(d, |c|).value, head, kids, c, d);
  }

  /** A full object's header, in its four parts. */
  ghost predicate FullHead(names: seq<Bytes>, noffs: seq<int>, voffs: seq<int>, head: Bytes, w: Bytes, x: Bytes, named: Bytes) {
    && head == [T_OBJECT_FULL] + PutVarint(|names|)
    && w == Words(noffs)
    && x == Words(voffs)
    && named == NameBytes(names, |names|)
  }

  lemma FullHeadWords(names: seq<Bytes>, noffs: seq<int>, voffs: seq<int>, d: Bytes, at: int,
                      head: Bytes, w: Bytes, x: Bytes, named: Bytes)
    requires |names| == |noffs| == |voffs| < TWO_31 && AllInt32(noffs) && AllInt32(voffs)
    requires FullHead(names, noffs, voffs, head, w, x, named)
    requires At(d, at, head) && At(d, at + |head|, w) && At(d, at + |head| + |w|, x)
    requires NamesFrom(d, noffs) == Some(names)
    ensures NameTableAt(d, at).Some? && NameTableAt(d, at).value.names == names
    ensures RawNode(d, at) == Some(NObj(|names|, names, noffs, voffs))
  {
    HeadReadBack(d, at, T_OBJECT_FULL, |names|);
    WordsReadBack(d, at + |head|, noffs);
    WordsReadBack(d, at + |head| + |w|, voffs);
  }

  lemma FullHeadTable(names: seq<Bytes>, noffs: seq<int>, voffs: seq<int>, d: Bytes, at: int,
                      head: Bytes, w: Bytes, x: Bytes, named: Bytes)
    requires |names| == |noffs| == |voffs| < TWO_31 && AllInt32(noffs)
    requires FullHead(names, noffs, voffs, head, w, x, named)
    requires At(d, at, head + w + x + named)
    requires NamesFrom(d, noffs) == Some(names)
    ensures NameTableAt(d, at).Some? && NameTableAt(d, at).value.names == names
  {
    AtParts(d, at, head + w + x + named, head, w, x, named);
    HeadReadBack(d, at, T_OBJECT_FULL, |names|);
    WordsReadBack(d, at + |head|, noffs);
  }

  lemma FullHeadReadBack(names: seq<Bytes>, noffs: seq<int>, voffs: seq<int>, d: Bytes, at: int,
                         head: Bytes, w: Bytes, x: Bytes, named: Bytes)
    requires |names| == |noffs| == |voffs| < TWO_31 && AllInt32(noffs) && AllInt32(voffs)
    requires FullHead(names, noffs, voffs, head, w, x, named)
    requires At(d, at, head + w + x + named)
    requires NamesFrom(d, noffs) == Some(names)
    ensures NameTableAt(d, at).Some? && NameTableAt(d, at).value.names == names
    ensures RawNode(d, at) == Some(NObj(|names|, names, noffs, voffs))
  {
    AtParts(d, at, head + w + x + named, head, w, x, named);
    FullHeadWords(names, noffs, voffs, d, at, head, w, x, named);
  }

  lemma FullHeadNames(names: seq<Bytes>, d: Bytes, at: int, front: Bytes, named: Bytes)
    requires |d| < TWO_31 && 0 <= at
    requires forall i | 0 <= i < |names| :: |names[i]| < TWO_31
    requires At(d, at, front + named) && named == NameBytes(names, |names|)
    ensures NamesFrom(d, NameOffsets(names, at + |front|)) == Some(names)
    ensures AllInt32(NameOffsets(names, at + |front|))
  {
    hide *;
    AtSplit(d, at, front, named);
    NamesReadBack(d, at + |front|, names, named);
  }

  lemma FullObjectCorrect(names: seq<Bytes>, noffs: seq<int>, vals: seq<Tree>, kids: WrittenAll, c: Bytes, d: Bytes,
                          head: Bytes, w: Bytes, x: Bytes, named: Bytes)
    requires |names| == |vals| == |kids.offs| == |noffs| < TWO_31 && |d| < TWO_31
    requires forall i | 0 <= i < |names| :: |names[i]| < TWO_31
    requires FullHead(names, noffs, kids.offs, head, w, x, named)
    requires noffs == NameOffsets(names, |c| + |head| + |w| + |x|)
    requires c + (head + w + x + named) <= d && KidsOK(kids, vals, c, head + w + x + named, d)
    ensures WrittenOK(Written(|c|, head + w + x + named + kids.out, kids.cache), Obj(names, vals), c, d)
  {
    var whole := head + w + x + named;
    hide At, NameOffsets, NameBytes, Words;
    AtAppended(c, whole, d);
    FullHeadNames(names, d, |c|, head + w + x, named);
    FullHeadReadBack(names, noffs, kids.offs, d, |c|, head, w, x, named);
    ContainerCorrect(Obj(names, vals), RawNode(d, |c|).value, whole, kids, c, d);
  }

  /** Reading back what the writer appends for a document gives the document, at
      the offset it returned, whatever is written after it. */
  lemma {:induction false} WriteCorrect(t: Tree, base: int, len: nat, cache: Cache, c: Bytes, d: Bytes)
    requires Proper(t) && 0 <= base && |c| == base + len && CacheOK(cache, c)
    requires c + Write(t, base, len, cache).out <= d && |d| < TWO_31
    ensures WrittenOK(Write(t, base, len, cache), t, c, d)
    decreases t
  {
    match t
    case Leaf(s) => WriteLeafCorrect(s, base, len, cache, c, d);
    case Arr(elems) => WriteArrayCorrect(elems, base, len, cache, c, d);
    case Obj(names, vals) =>
      if names in cache.types && cache.types[names] != base + len {
        WriteThinCorrect(names, vals, base, len, cache, c, d);
      } else {
        WriteFullCorrect(names, vals, base, len, cache, c, d);
      }
  }

  lemma KidsIntro(kids: WrittenAll, ts: seq<Tree>, c: Bytes, head: Bytes, d: Bytes)
    requires |kids.offs| == |ts| && Laid(d, kids.offs, Reprs(ts, |ts|), |c + head|, |c + head| + |kids.out|)
    requires CacheOK(kids.cache, c + head + kids.out)
    ensures KidsOK(kids, ts, c, head, d)
  {
    hide CacheOK, Laid;
    assert |c + head| == |c| + |head|;
    assert c + (head + kids.out) == c + head + kids.out;
  }

  lemma WriteArrayParts(elems: seq<Tree>, base: int, len: nat, cache: Cache) returns (kids: WrittenAll, head: Bytes)
    ensures |kids.offs| == |elems| && head == [T_ARRAY] + PutVarint(|elems|) + Words(kids.offs)
    ensures kids == WriteUpto(elems, |elems|, base, len + |head|, cache)
    ensures Write(Arr(elems), base, len, cache) == Written(base + len, head + kids.out, kids.cache)
  {
    hide Words, PutVarint, WriteUpto;
    kids := WriteUpto(elems, |elems|, base, len + 1 + |PutVarint(|elems|)| + 4 * |elems|, cache);
    head := [T_ARRAY] + PutVarint(|elems|) + Words(kids.offs);
  }

  lemma {:induction false} WriteArrayCorrect(elems: seq<Tree>, base: int, len: nat, cache: Cache, c: Bytes, d: Bytes)
    requires |elems| < TWO_31 && forall i | 0 <= i < |elems| :: Proper(elems[i])
    requires 0 <= base && |c| == base + len && CacheOK(cache, c)
    requires c + Write(Arr(elems), base, len, cache).out <= d && |d| < TWO_31
    ensures WrittenOK(Write(Arr(elems), base, len, cache), Arr(elems), c, d)
    decreases elems, |elems| + 1
  {
    hide *;
    var kids, head := WriteArrayParts(elems, base, len, cache);
    assert c + (head + kids.out) == c + head + kids.out;
    CacheExtends(cache, c, c + head);
    WriteUptoCorrect(elems, |elems|, base, len + |head|, cache, c + head, d);
    KidsIntro(kids, elems, c, head, d);
    ArrayCorrect(elems, head, kids, c, d);
  }

  lemma WriteThinParts(names: seq<Bytes>, vals: seq<Tree>, base: int, len: nat, cache: Cache)
    returns (kids: WrittenAll, head: Bytes)
    requires names in cache.types && cache.types[names] != base + len
    ensures |kids.offs| == |vals| && head == [T_OBJECT_THIN] + Be32(cache.types[names]) + Words(kids.offs)
    ensures kids == WriteUpto(vals, |vals|, base, len + |head|, cache)
    ensures Write(Obj(names, vals), base, len, cache) == Written(base + len, head + kids.out, kids.cache)
  {
    hide Words, Be32, WriteUpto;
    kids := WriteUpto(vals, |vals|, base, len + 5 + 4 * |vals|, cache);
    head := [T_OBJECT_THIN] + Be32(cache.types[names]) + Words(kids.offs);
  }

  lemma CachedShape(names: seq<Bytes>, cache: Cache, c: Bytes, d: Bytes)
    requires names in cache.types && CacheOK(cache, c) && c <= d
    ensures IsInt32(cache.types[names])
    ensures NameTableAt(d, cache.types[names]).Some? && NameTableAt(d, cache.types[names]).value.names == names
  {
    NameTableExtends(c, d, cache.types[names]);
  }

  lemma {:induction false} WriteThinCorrect(names: seq<Bytes>, vals: seq<Tree>, base: int, len: nat, cache: Cache, c: Bytes, d: Bytes)
    requires |names| == |vals| < TWO_31 && forall i | 0 <= i < |vals| :: Proper(vals[i])
    requires 0 <= base && |c| == base + len && CacheOK(cache, c)
    requires names in cache.types && cache.types[names] != base + len
    requires c + Write(Obj(names, vals), base, len, cache).out <= d && |d| < TWO_31
    ensures WrittenOK(Write(Obj(names, vals), base, len, cache), Obj(names, vals), c, d)
    decreases vals, |vals| + 1
  {
    hide *;
    var kids, head := WriteThinParts(names, vals, base, len, cache);
    assert c + (head + kids.out) == c + head + kids.out;
    CacheExtends(cache, c, c + head);
    CachedShape(names, cache, c, d);
    WriteUptoCorrect(vals, |vals|, base, len + |head|, cache, c + head, d);
    KidsIntro(kids, vals, c, head, d);
    ThinObjectCorrect(names, vals, cache.types[names], head, kids, c, d);
  }

  lemma WriteFullParts(names: seq<Bytes>, vals: seq<Tree>, base: int, len: nat, cache: Cache)
    returns (kids: WrittenAll, noffs: seq<int>, head: Bytes, w: Bytes, x: Bytes, named: Bytes)
    requires |names| == |vals| && !(names in cache.types && cache.types[names] != base + len)
    ensures |noffs| == |kids.offs| == |vals| && FullHead(names, noffs, kids.offs, head, w, x, named)
    ensures noffs == NameOffsets(names, base + len + |head| + |w| + |x|)
    ensures var types := cache.types[names := base + len];
            kids == WriteUpto(vals, |vals|, base, len + |head + w + x + named|, cache.(types := types))
    ensures Write(Obj(names, vals), base, len, cache) == Written(base + len, head + w + x + named + kids.out, kids.cache)
  {
    hide Words, PutVarint, WriteUpto, NameBytes, NameOffsets;
    head, named := [T_OBJECT_FULL] + PutVarint(|names|), NameBytes(names, |names|);
    var start := |head| + 4 * |names| + 4 * |vals|;
    noffs := NameOffsets(names, base + len + start);
    kids := WriteUpto(vals, |vals|, base, len + start + |named|, cache.(types := cache.types[names := base + len]));
    w, x := Words(noffs), Words(kids.offs);
  }

  lemma {:induction false} WriteFullCorrect(names: seq<Bytes>, vals: seq<Tree>, base: int, len: nat, cache: Cache, c: Bytes, d: Bytes)
    requires |names| == |vals| < TWO_31 && forall i | 0 <= i < |vals| :: Proper(vals[i])
    requires forall i | 0 <= i < |names| :: |names[i]| < TWO_31
    requires 0 <= base && |c| == base + len && CacheOK(cache, c)
    requires !(names in cache.types && cache.types[names] != base + len)
    requires c + Write(Obj(names, vals), base, len, cache).out <= d && |d| < TWO_31
    ensures WrittenOK(Write(Obj(names, vals), base, len, cache), Obj(names, vals), c, d)
    decreases vals, |vals| + 1
  {
    hide *;
    var kids, noffs, head, w, x, named := WriteFullParts(names, vals, base, len, cache);
    var whole := head + w + x + named;
    assert c + (whole + kids.out) == c + whole + kids.out;
    CacheObjectType(names, noffs, kids.offs, cache, c, head, w, x, named);
    WriteUptoCorrect(vals, |vals|, base, len + |whole|, cache.(types := cache.types[names := |c|]), c + whole, d);
    KidsIntro(kids, vals, c, whole, d);
    FullObjectCorrect(names, noffs, vals, kids, c, d, head, w, x, named);
  }

  /** The shape of an object may be borrowed as soon as its names are written,
      even by the objects nested in it. */
  lemma CacheObjectType(names: seq<Bytes>, noffs: seq<int>, voffs: seq<int>, cache: Cache, c: Bytes,
                        head: Bytes, w: Bytes, x: Bytes, named: Bytes)
    requires |names| == |noffs| == |voffs| < TWO_31 && CacheOK(cache, c)
    requires forall i | 0 <= i < |names| :: |names[i]| < TWO_31
    requires FullHead(names, noffs, voffs, head, w, x, named)
    requires noffs == NameOffsets(names, |c| + |head| + |w| + |x|)
    requires |c + (head + w + x + named)| < TWO_31
    ensures CacheOK(cache.(types := cache.types[names := |c|]), c + (head + w + x + named))
  {
    var whole := head + w + x + named;
    var d := c + whole;
    hide At, Words, NameBytes, NameOffsets, PutVarint;
    AtAppended(c, whole, d);
    FullHeadNames(names, d, |c|, head + w + x, named);
    FullHeadTable(names, noffs, voffs, d, |c|, head, w, x, named);
    CacheExtends(cache, c, d);
  }

  lemma {:induction false} WriteUptoCorrect(ts: seq<Tree>, n: nat, base: int, len: nat, cache: Cache, c: Bytes, d: Bytes)
    requires n <= |ts| && 0 <= base && |c| == base + len && CacheOK(cache, c)
    requires forall i | 0 <= i < |ts| :: Proper(ts[i])
    requires c + WriteUpto(ts, n, base, len, cache).out <= d && |d| < TWO_31
    ensures var r := WriteUpto(ts, n, base, len, cache);
            Laid(d, r.offs, Reprs(ts, n), |c|, |c| + |r.out|) && CacheOK(r.cache, c + r.out)
    decreases ts, n
  {
    var r := WriteUpto(ts, n, base, len, cache);
    if n == 0 {
      assert c + r.out == c;
      return;
    }
    WriteOneMoreCorrect(ts, n, base, len, cache, c, d);
  }

  lemma WriteUptoStep(ts: seq<Tree>, n: nat, base: int, len: nat, cache: Cache)
    requires 0 < n <= |ts|
    ensures var before := WriteUpto(ts, n - 1, base, len, cache);
            var last := Write(ts[n - 1], base, len + |before.out|, before.cache);
            WriteUpto(ts, n, base, len, cache)
            == WrittenAll(before.offs + [last.off], before.out + last.out, last.cache)
  {
    hide Write;
  }

  lemma {:induction false} WriteOneMoreCorrect(ts: seq<Tree>, n: nat, base: int, len: nat, cache: Cache, c: Bytes, d: Bytes)
    requires 0 < n <= |ts| && 0 <= base && |c| == base + len && CacheOK(cache, c)
    requires forall i | 0 <= i < |ts| :: Proper(ts[i])
    requires c + WriteUpto(ts, n, base, len, cache).out <= d && |d| < TWO_31
    ensures var r := WriteUpto(ts, n, base, len, cache);
            Laid(d, r.offs, Reprs(ts, n), |c|, |c| + |r.out|) && CacheOK(r.cache, c + r.out)
    decreases ts, n, 0
  {
    hide *;
    var r := WriteUpto(ts, n, base, len, cache);
    var before := WriteUpto(ts, n - 1, base, len, cache);
    var last := Write(ts[n - 1], base, len + |before.out|, before.cache);
    var c' := c + before.out;
    WriteUptoStep(ts, n, base, len, cache);
    ReprsOneMore(ts, n);
    assert c + r.out == c' + last.out;
    WriteUptoCorrect(ts, n - 1, base, len, cache, c, d);
    WriteCorrect(ts[n - 1], base, len + |before.out|, before.cache, c', d);
    WrittenParts(last, ts[n - 1], c', d);
    LaidOneMore(d, before.offs, Reprs(ts, n - 1), last.off, Repr(ts[n - 1]), |c|, |c'|, |c| + |r.out|);
  }

  /** A document written as a whole file. */
  function Snap(t: Tree): Bytes { Write(t, 0, 0, EMPTY).out }

  /** The snapshot round trip: the file of a document reads back, from offset 0, as
      the document, with the exact text of its numbers and strings, and none of
      its containers is shared between two paths. */
  lemma SnapshotRoundTrip(t: Tree)
    requires Proper(t) && |Snap(t)| < TWO_31
    ensures Denotes(Snapshot(Snap(t)), 0, Repr(t)) && Apart(Snap(t), 0, Repr(t))
    ensures Plain(t) ==> Value(Repr(t)) == t
  {
    hide Write, Denotes, Apart, CacheOK, Proper, Repr, Value, Plain, Spans;
    var r := Write(t, 0, 0, EMPTY);
    assert [] + r.out == r.out;
    NothingCached();
    WriteCorrect(t, 0, 0, EMPTY, [], r.out);
    FirstOffset(t);
    if Plain(t) { ReprKeepsValue(t); }
  }

  lemma NothingCached()
    ensures CacheOK(EMPTY, [])
  {
  }

  /** The first element stands at the start, whatever it is. */
  lemma FirstOffset(t: Tree)
    ensures Write(t, 0, 0, EMPTY).off == 0
  {
    hide WriteUpto, PutVarint, Words, NameBytes, NameOffsets, ScalarBytes, Itoa, Be32;
  }

  /** Appending a document to anything already there leaves every earlier offset
      decodable, to the same document. */
  lemma WriteKeepsEarlier(t: Tree, base: int, cache: Cache, c: Bytes, off: int, u: Tree)
    requires 0 <= base <= |c| && Denotes(Snapshot(c), off, u)
    ensures Denotes(Snapshot(c + Write(t, base, |c| - base, cache).out), off, u)
  {
    DenotesExtends(c, c + Write(t, base, |c| - base, cache).out, off, u);
  }
}
