/** How the snapshot writer stores a document: the first object with a list of names is
    written full, every later one thin. */
module WrittenShapes {
  import opened ByteCodec
  import opened Names
  import opened Trees
  import opened Reader
  import opened StoredShapes
  import opened Containers
  import opened SnapshotFormat

  // ---- The shapes of the objects ----

  /** The lists of names that have been written once the document has. */
  function After(t: Tree, known: set<seq<Bytes>>): set<seq<Bytes>>
    decreases t
  {
    match t
    case Leaf(_) => known
    case Arr(elems) => AfterUpto(elems, |elems|, known)
    case Obj(names, vals) => AfterUpto(vals, |vals|, known + {names})
  }

  function AfterUpto(ts: seq<Tree>, n: nat, known: set<seq<Bytes>>): set<seq<Bytes>>
    requires n <= |ts|
    decreases ts, n
  {
    if n == 0 then known else After(ts[n - 1], AfterUpto(ts, n - 1, known))
  }

  /** How a document is stored when it is written after these lists of names. */
  function Shape(t: Tree, known: set<seq<Bytes>>): Stored
    decreases t
  {
    match t
    case Leaf(s) => SLeaf(s)
    case Arr(elems) => SArr(Shapes(elems, |elems|, known))
    case Obj(names, vals) =>
      SObj(if names in known then T_OBJECT_THIN as int else T_OBJECT_FULL as int, names,
           Shapes(vals, |vals|, known + {names}))
  }

  function Shapes(ts: seq<Tree>, n: nat, known: set<seq<Bytes>>): (r: seq<Stored>)
    requires n <= |ts|
    ensures |r| == n
    decreases ts, n
  {
    if n == 0 then [] else Shapes(ts, n - 1, known) + [Shape(ts[n - 1], AfterUpto(ts, n - 1, known))]
  }

  lemma {:induction false} ShapesAt(ts: seq<Tree>, n: nat, known: set<seq<Bytes>>, i: nat)
    requires i < n <= |ts|
    ensures Shapes(ts, n, known)[i] == Shape(ts[i], AfterUpto(ts, i, known))
  {
    hide Shape, After;
    if i < n - 1 {
      ShapesAt(ts, n - 1, known, i);
    }
  }

  /** It is the document that is stored. */
  lemma {:induction false} ShapeDoc(t: Tree, known: set<seq<Bytes>>)
    ensures Doc(Shape(t, known)) == t
    decreases t, 1
  {
    match t
    case Leaf(_) =>
    case Arr(elems) => ShapesDocs(elems, known);
    case Obj(names, vals) => ShapesDocs(vals, known + {names});
  }

  lemma {:induction false} ShapesDocs(ts: seq<Tree>, known: set<seq<Bytes>>)
    ensures Docs(Shapes(ts, |ts|, known)) == ts
    decreases ts, 0
  {
    hide Shape, Shapes, Doc;
    var ss := Shapes(ts, |ts|, known);
    forall i | 0 <= i < |ts| ensures Docs(ss)[i] == ts[i] {
      ShapesAt(ts, |ts|, known, i);
      ShapeDoc(ts[i], AfterUpto(ts, i, known));
    }
  }

  /** No object of the document is the first one with its names. */
  ghost predicate Known(t: Tree, known: set<seq<Bytes>>) {
    match t
    case Leaf(_) => true
    case Arr(elems) => forall i | 0 <= i < |elems| :: Known(elems[i], known)
    case Obj(names, vals) => names in known && forall i | 0 <= i < |vals| :: Known(vals[i], known)
  }

  ghost predicate AllThin(s: Stored) {
    match s
    case SLeaf(_) => true
    case SArr(elems) => forall i | 0 <= i < |elems| :: AllThin(elems[i])
    case SObj(kind, _, vals) => kind == T_OBJECT_THIN as int && forall i | 0 <= i < |vals| :: AllThin(vals[i])
  }

  lemma {:induction false} KnownMonotone(t: Tree, known: set<seq<Bytes>>, more: set<seq<Bytes>>)
    requires known <= more && Known(t, known)
    ensures Known(t, more)
    decreases t
  {
    match t
    case Leaf(_) =>
    case Arr(elems) =>
      forall i | 0 <= i < |elems| ensures Known(elems[i], more) { KnownMonotone(elems[i], known, more); }
    case Obj(_, vals) =>
      forall i | 0 <= i < |vals| ensures Known(vals[i], more) { KnownMonotone(vals[i], known, more); }
  }

  lemma {:induction false} KnownAfter(t: Tree, known: set<seq<Bytes>>)
    ensures known <= After(t, known) && Known(t, After(t, known))
    decreases t, 1, 0
  {
    match t
    case Leaf(_) =>
    case Arr(elems) => KnownAfterUpto(elems, |elems|, known);
    case Obj(names, vals) => KnownAfterUpto(vals, |vals|, known + {names});
  }

  lemma {:induction false} KnownAfterUpto(ts: seq<Tree>, n: nat, known: set<seq<Bytes>>)
    requires n <= |ts|
    ensures known <= AfterUpto(ts, n, known) && forall i | 0 <= i < n :: Known(ts[i], AfterUpto(ts, n, known))
    decreases ts, 0, n
  {
    hide After, Known;
    if n > 0 {
      var before, after := AfterUpto(ts, n - 1, known), AfterUpto(ts, n, known);
      KnownAfterUpto(ts, n - 1, known);
      KnownAfter(ts[n - 1], before);
      forall i | 0 <= i < n - 1 ensures Known(ts[i], after) {
        KnownMonotone(ts[i], before, after);
      }
    }
  }

  /** More is known later on. */
  lemma {:induction false} AfterGrows(ts: seq<Tree>, i: nat, n: nat, known: set<seq<Bytes>>)
    requires i <= n <= |ts|
    ensures AfterUpto(ts, i, known) <= AfterUpto(ts, n, known)
    decreases n
  {
    hide After;
    if i < n {
      AfterGrows(ts, i, n - 1, known);
      KnownAfter(ts[n - 1], AfterUpto(ts, n - 1, known));
    }
  }

  /** All objects are thin exactly when their names have all been written before. */
  lemma {:induction false} KnownIsThin(t: Tree, known: set<seq<Bytes>>)
    ensures Known(t, known) <==> AllThin(Shape(t, known))
    ensures Known(t, known) ==> After(t, known) == known
    decreases t, 1, 0
  {
    hide Shapes, AfterUpto;
    match t
    case Leaf(_) =>
    case Arr(elems) => KnownAreThin(elems, |elems|, known);
    case Obj(names, vals) =>
      KnownAreThin(vals, |vals|, known + {names});
      if names in known {
        assert known + {names} == known;
      }
  }

  ghost predicate AllKnown(ts: seq<Tree>, n: nat, known: set<seq<Bytes>>)
    requires n <= |ts|
  {
    forall i | 0 <= i < n :: Known(ts[i], known)
  }

  ghost predicate ThinOnly(ss: seq<Stored>) { forall i | 0 <= i < |ss| :: AllThin(ss[i]) }

  lemma ThinOneMore(ss: seq<Stored>, s: Stored)
    ensures ThinOnly(ss + [s]) <==> ThinOnly(ss) && AllThin(s)
  {
    hide AllThin;
    assert (ss + [s])[|ss|] == s && forall i | 0 <= i < |ss| :: (ss + [s])[i] == ss[i];
    if ThinOnly(ss + [s]) {
      forall i | 0 <= i < |ss| ensures AllThin(ss[i]) { assert AllThin((ss + [s])[i]); }
    }
  }

  lemma {:induction false} KnownAreThin(ts: seq<Tree>, n: nat, known: set<seq<Bytes>>)
    requires n <= |ts|
    ensures AllKnown(ts, n, known) <==> ThinOnly(Shapes(ts, n, known))
    ensures AllKnown(ts, n, known) ==> AfterUpto(ts, n, known) == known
    decreases ts, 0, n
  {
    hide After, Shape, Known, AllThin, ThinOnly;
    if n == 0 {
      assert ThinOnly([]) by { NothingThin(); }
    } else {
      var before := AfterUpto(ts, n - 1, known);
      KnownAreThin(ts, n - 1, known);
      KnownIsThin(ts[n - 1], before);
      assert AllKnown(ts, n, known) <==> AllKnown(ts, n - 1, known) && Known(ts[n - 1], known);
      ThinOneMore(Shapes(ts, n - 1, known), Shape(ts[n - 1], before));
    }
  }

  lemma NothingThin()
    ensures ThinOnly([])
  {
  }

  /** The document has an object with this list of names. */
  ghost predicate Within(t: Tree, names: seq<Bytes>) {
    match t
    case Leaf(_) => false
    case Arr(elems) => exists i | 0 <= i < |elems| :: Within(elems[i], names)
    case Obj(own, vals) => own == names || exists i | 0 <= i < |vals| :: Within(vals[i], names)
  }

  ghost predicate WithinAny(ts: seq<Tree>, n: nat, names: seq<Bytes>)
    requires n <= |ts|
  {
    exists i | 0 <= i < n :: Within(ts[i], names)
  }

  /** What has been written is what had been before, and the lists of the document. */
  lemma {:induction false} AfterHas(t: Tree, known: set<seq<Bytes>>, names: seq<Bytes>)
    ensures names in After(t, known) <==> names in known || Within(t, names)
    decreases t, 1, 0
  {
    hide AfterUpto;
    match t
    case Leaf(_) =>
    case Arr(elems) => AfterUptoHas(elems, |elems|, known, names);
    case Obj(own, vals) => AfterUptoHas(vals, |vals|, known + {own}, names);
  }

  lemma {:induction false} AfterUptoHas(ts: seq<Tree>, n: nat, known: set<seq<Bytes>>, names: seq<Bytes>)
    requires n <= |ts|
    ensures names in AfterUpto(ts, n, known) <==> names in known || WithinAny(ts, n, names)
    decreases ts, 0, n
  {
    hide After, Within;
    if n > 0 {
      AfterUptoHas(ts, n - 1, known, names);
      AfterHas(ts[n - 1], AfterUpto(ts, n - 1, known), names);
    }
  }

  /** Each list of names in the document has been written before in both cases, or in none. */
  ghost predicate SameBefore(t: Tree, known: set<seq<Bytes>>, more: set<seq<Bytes>>) {
    forall names | Within(t, names) :: names in known <==> names in more
  }

  ghost predicate AllSameBefore(ts: seq<Tree>, n: nat, known: set<seq<Bytes>>, more: set<seq<Bytes>>)
    requires n <= |ts|
  {
    forall names | WithinAny(ts, n, names) :: names in known <==> names in more
  }

  /** When a document is stored in the same way in two places: exactly then. */
  lemma {:induction false} SameShape(t: Tree, known: set<seq<Bytes>>, more: set<seq<Bytes>>)
    ensures Shape(t, known) == Shape(t, more) <==> SameBefore(t, known, more)
    decreases t, 1, 0
  {
    hide Shapes;
    match t
    case Leaf(_) =>
    case Arr(elems) => SameShapes(elems, |elems|, known, more);
    case Obj(names, vals) =>
      SameShapes(vals, |vals|, known + {names}, more + {names});
      assert Within(t, names);
      assert forall other | WithinAny(vals, |vals|, other) :: Within(t, other);
  }

  lemma {:induction false} SameShapes(ts: seq<Tree>, n: nat, known: set<seq<Bytes>>, more: set<seq<Bytes>>)
    requires n <= |ts|
    ensures Shapes(ts, n, known) == Shapes(ts, n, more) <==> AllSameBefore(ts, n, known, more)
    decreases ts, 0, n
  {
    hide Shape, Within, AfterUpto;
    if n > 0 {
      var before, later := AfterUpto(ts, n - 1, known), AfterUpto(ts, n - 1, more);
      SameShapes(ts, n - 1, known, more);
      SameShape(ts[n - 1], before, later);
      forall names ensures names in before <==> names in known || WithinAny(ts, n - 1, names) {
        AfterUptoHas(ts, n - 1, known, names);
      }
      forall names ensures names in later <==> names in more || WithinAny(ts, n - 1, names) {
        AfterUptoHas(ts, n - 1, more, names);
      }
      LastShape(Shapes(ts, n - 1, known), Shape(ts[n - 1], before), Shapes(ts, n - 1, more), Shape(ts[n - 1], later));
      assert forall names :: WithinAny(ts, n, names) <==> WithinAny(ts, n - 1, names) || Within(ts[n - 1], names);
    }
  }

  lemma LastShape(ss: seq<Stored>, s: Stored, ss': seq<Stored>, s': Stored)
    requires |ss| == |ss'|
    ensures ss + [s] == ss' + [s'] <==> ss == ss' && s == s'
  {
    if ss + [s] == ss' + [s'] {
      assert ss == (ss + [s])[..|ss|] && ss' == (ss' + [s'])[..|ss|];
      assert s == (ss + [s])[|ss|] && s' == (ss' + [s'])[|ss|];
    }
  }

  lemma {:induction false} KnownHas(t: Tree, known: set<seq<Bytes>>, names: seq<Bytes>)
    requires Known(t, known) && Within(t, names)
    ensures names in known
    decreases t
  {
    match t
    case Leaf(_) =>
    case Arr(elems) =>
      var i :| 0 <= i < |elems| && Within(elems[i], names);
      KnownHas(elems[i], known, names);
    case Obj(own, vals) =>
      if own != names {
        var i :| 0 <= i < |vals| && Within(vals[i], names);
        KnownHas(vals[i], known, names);
      }
  }

  /** Two elements of a written array are stored alike exactly when they are equal and no
      object in the first is the first one with its names. */
  lemma StoredAlike(ts: seq<Tree>, known: set<seq<Bytes>>, i: nat, j: nat)
    requires i < j < |ts|
    ensures var ss := Shapes(ts, |ts|, known);
            ss[i] == ss[j] <==> ts[i] == ts[j] && Known(ts[i], AfterUpto(ts, i, known))
  {
    hide Shape, Shapes, Known, Within, AllThin, After, Doc;
    var before, later := AfterUpto(ts, i, known), AfterUpto(ts, j, known);
    ShapesAt(ts, |ts|, known, i);
    ShapesAt(ts, |ts|, known, j);
    AfterGrows(ts, i, j, known);
    ShapeDoc(ts[i], before);
    ShapeDoc(ts[j], later);
    KnownIsThin(ts[i], before);
    KnownIsThin(ts[j], later);
    if Known(ts[i], before) {
      KnownMonotone(ts[i], before, later);
      forall names | Within(ts[i], names) ensures names in before && names in later {
        KnownHas(ts[i], before, names);
      }
      SameShape(ts[i], before, later);
    }
    if ts[i] == ts[j] {
      KnownAfterUpto(ts, j, known);
    }
  }

  // ---- The writer ----

  /** The shapes that the writer remembers stand in what has been written. */
  ghost predicate TypesBelow(cache: Cache, at: int) {
    forall names | names in cache.types :: cache.types[names] < at
  }

  lemma {:induction false} WriteTypes(t: Tree, base: int, len: nat, cache: Cache)
    requires TypesBelow(cache, base + len)
    ensures var r := Write(t, base, len, cache);
            TypesBelow(r.cache, base + len + |r.out|) && r.cache.types.Keys == After(Repr(t), cache.types.Keys)
    decreases t, 0, 0
  {
    hide WriteUpto, PutVarint, Words, Be32, NameBytes, NameOffsets, ScalarBytes, Itoa, AfterUpto;
    match t
    case Leaf(_) =>
    case Arr(elems) =>
      assert Repr(t).elems == Reprs(elems, |elems|);
      UptoTypes(elems, |elems|, base, len + 1 + |PutVarint(|elems|)| + 4 * |elems|, cache);
    case Obj(names, vals) =>
      assert Repr(t).vals == Reprs(vals, |vals|);
      if names in cache.types && cache.types[names] != base + len {
        assert cache.types.Keys + {names} == cache.types.Keys;
        UptoTypes(vals, |vals|, base, len + 5 + 4 * |vals|, cache);
      } else {
        var start := 1 + |PutVarint(|names|)| + 4 * |names| + 4 * |vals|;
        var types := cache.types[names := base + len];
        assert types.Keys == cache.types.Keys + {names};
        UptoTypes(vals, |vals|, base, len + start + |NameBytes(names, |names|)|, cache.(types := types));
      }
  }

  lemma {:induction false} UptoTypes(ts: seq<Tree>, n: nat, base: int, len: nat, cache: Cache)
    requires n <= |ts| && TypesBelow(cache, base + len)
    ensures var r := WriteUpto(ts, n, base, len, cache);
            && TypesBelow(r.cache, base + len + |r.out|)
            && r.cache.types.Keys == AfterUpto(Reprs(ts, |ts|), n, cache.types.Keys)
    decreases ts, 1, n
  {
    hide Write, WriteUpto, TypesBelow, After, Repr;
    if n == 0 {
      UptoNone(ts, base, len, cache);
    } else {
      UptoTypes(ts, n - 1, base, len, cache);
      var before := WriteUpto(ts, n - 1, base, len, cache);
      WriteUptoStep(ts, n, base, len, cache);
      WriteTypes(ts[n - 1], base, len + |before.out|, before.cache);
      assert Reprs(ts, |ts|)[n - 1] == Repr(ts[n - 1]);
    }
  }

  lemma UptoNone(ts: seq<Tree>, base: int, len: nat, cache: Cache)
    ensures WriteUpto(ts, 0, base, len, cache) == WrittenAll([], [], cache)
  {
  }

  /** Where the elements of a written array stand. */
  lemma ArrayHead(elems: seq<Tree>, base: int, len: nat, cache: Cache, c: Bytes, d: Bytes)
    returns (kids: WrittenAll, whole: Bytes, c': Bytes)
    requires |elems| < TWO_31 && forall i | 0 <= i < |elems| :: Proper(elems[i])
    requires 0 <= base && |c| == base + len && CacheOK(cache, c)
    requires c + Write(Arr(elems), base, len, cache).out <= d && |d| < TWO_31
    ensures Write(Arr(elems), base, len, cache).off == |c| && len + |whole| > 0
    ensures c' == c + whole && CacheOK(cache, c') && c' + kids.out <= d
    ensures kids == WriteUpto(elems, |elems|, base, len + |whole|, cache) && |kids.offs| == |elems|
    ensures RawNode(d, |c|) == Some(NArr(kids.offs)) && Disjoint(d, kids.offs, Reprs(elems, |elems|))
  {
    hide Write, WriteUpto, CacheOK, Words, PutVarint, Laid, RawNode, Proper, At, Disjoint;
    kids, whole := WriteArrayParts(elems, base, len, cache);
    c' := c + whole;
    assert c + (whole + kids.out) == c + whole + kids.out;
    CacheExtends(cache, c, c + whole);
    WriteUptoCorrect(elems, |elems|, base, len + |whole|, cache, c + whole, d);
    LaidInt32(d, kids.offs, Reprs(elems, |elems|), |c + whole|, |c + whole| + |kids.out|);
    AtAppended(c, whole, d);
    ArrayReadBack(d, |c|, kids.offs);
  }

  /** Where the values of a written object stand. */
  lemma ObjectHead(t: Tree, base: int, len: nat, cache: Cache, c: Bytes, d: Bytes)
    returns (kids: WrittenAll, whole: Bytes, c': Bytes, cache': Cache)
    requires t.Obj? && Proper(t) && 0 <= base && |c| == base + len && CacheOK(cache, c)
    requires c + Write(t, base, len, cache).out <= d && |d| < TWO_31
    ensures c' == c + whole && |c| < |c'| && CacheOK(cache', c') && Write(t, base, len, cache).off == |c|
    ensures cache' == if t.names in cache.types && cache.types[t.names] != |c| then cache
                      else cache.(types := cache.types[t.names := |c|])
    ensures kids == WriteUpto(t.vals, |t.vals|, base, len + |whole|, cache') && c' + kids.out <= d
    ensures RawNode(d, |c|).Some? && RawNode(d, |c|).value.Slots() == kids.offs
  {
    hide Write, WriteUpto, CacheOK, RawNode, Ascending;
    if t.names in cache.types && cache.types[t.names] != base + len {
      kids, whole := ThinHead(t.names, t.vals, base, len, cache, c, d);
      cache', c' := cache, c + whole;
    } else {
      kids, whole := FullHeadOf(t.names, t.vals, base, len, cache, c, d);
      cache', c' := cache.(types := cache.types[t.names := |c|]), c + whole;
    }
  }

  lemma ThinHead(names: seq<Bytes>, vals: seq<Tree>, base: int, len: nat, cache: Cache, c: Bytes, d: Bytes)
    returns (kids: WrittenAll, whole: Bytes)
    requires |names| == |vals| < TWO_31 && (forall i | 0 <= i < |vals| :: Proper(vals[i]))
    requires 0 <= base && |c| == base + len && CacheOK(cache, c) && names in cache.types && cache.types[names] != base + len
    requires c + Write(Obj(names, vals), base, len, cache).out <= d && |d| < TWO_31
    ensures |whole| > 0 && CacheOK(cache, c + whole) && Write(Obj(names, vals), base, len, cache).off == |c|
    ensures kids == WriteUpto(vals, |vals|, base, len + |whole|, cache) && c + whole + kids.out <= d
    ensures RawNode(d, |c|).Some? && RawNode(d, |c|).value.Slots() == kids.offs
  {
    hide Write, WriteUpto, CacheOK, Words, Be32, Laid, RawNode, NameTableAt, Proper, At;
    kids, whole := WriteThinParts(names, vals, base, len, cache);
    assert c + (whole + kids.out) == c + whole + kids.out;
    CacheExtends(cache, c, c + whole);
    CachedShape(names, cache, c, d);
    WriteUptoCorrect(vals, |vals|, base, len + |whole|, cache, c + whole, d);
    LaidInt32(d, kids.offs, Reprs(vals, |vals|), |c + whole|, |c + whole| + |kids.out|);
    AtAppended(c, whole, d);
    ThinObjectReadBack(d, |c|, names, kids.offs, cache.types[names]);
  }

  lemma LaidInt32(d: Bytes, offs: seq<int>, ts: seq<Tree>, lo: int, hi: int)
    requires |offs| == |ts| && Laid(d, offs, ts, lo, hi)
    ensures AllInt32(offs) && Disjoint(d, offs, ts)
  {
    hide Denotes, Apart, Spans, Disjoint;
  }

  lemma FullHeadOf(names: seq<Bytes>, vals: seq<Tree>, base: int, len: nat, cache: Cache, c: Bytes, d: Bytes)
    returns (kids: WrittenAll, whole: Bytes)
    requires |names| == |vals| < TWO_31 && (forall i | 0 <= i < |vals| :: Proper(vals[i]))
    requires forall i | 0 <= i < |names| :: |names[i]| < TWO_31
    requires 0 <= base && |c| == base + len && CacheOK(cache, c) && !(names in cache.types && cache.types[names] != base + len)
    requires c + Write(Obj(names, vals), base, len, cache).out <= d && |d| < TWO_31
    ensures |whole| > 0 && Write(Obj(names, vals), base, len, cache).off == |c|
    ensures var cache' := cache.(types := cache.types[names := |c|]);
            CacheOK(cache', c + whole) && kids == WriteUpto(vals, |vals|, base, len + |whole|, cache') && c + whole + kids.out <= d
    ensures RawNode(d, |c|).Some? && RawNode(d, |c|).value.Slots() == kids.offs
  {
    hide Write, WriteUpto, CacheOK, Words, NameBytes, NameOffsets, FullHead, Laid, RawNode, Proper, At, NamesFrom, NameTableAt;
    var noffs, head, w, x, named;
    kids, noffs, head, w, x, named := WriteFullParts(names, vals, base, len, cache);
    whole := head + w + x + named;
    FullHeadStarts(names, noffs, kids.offs, head, w, x, named);
    assert c + (whole + kids.out) == c + whole + kids.out;
    CacheObjectType(names, noffs, kids.offs, cache, c, head, w, x, named);
    WriteUptoCorrect(vals, |vals|, base, len + |whole|, cache.(types := cache.types[names := |c|]), c + whole, d);
    LaidInt32(d, kids.offs, Reprs(vals, |vals|), |c + whole|, |c + whole| + |kids.out|);
    AtAppended(c, whole, d);
    FullNamesRead(names, noffs, kids.offs, d, |c|, head, w, x, named);
    FullHeadReadBack(names, noffs, kids.offs, d, |c|, head, w, x, named);
  }

  lemma FullHeadStarts(names: seq<Bytes>, noffs: seq<int>, voffs: seq<int>, head: Bytes, w: Bytes, x: Bytes, named: Bytes)
    requires FullHead(names, noffs, voffs, head, w, x, named)
    ensures |head| > 0
  {
  }

  lemma FullNamesRead(names: seq<Bytes>, noffs: seq<int>, voffs: seq<int>, d: Bytes, at: int, head: Bytes, w: Bytes, x: Bytes,
                       named: Bytes)
    requires |d| < TWO_31 && 0 <= at && forall i | 0 <= i < |names| :: |names[i]| < TWO_31
    requires FullHead(names, noffs, voffs, head, w, x, named) && noffs == NameOffsets(names, at + |head| + |w| + |x|)
    requires At(d, at, head + w + x + named)
    ensures NamesFrom(d, noffs) == Some(names) && AllInt32(noffs)
  {
    hide At, NameOffsets, NameBytes, Words, PutVarint, NamesFrom;
    FullHeadNames(names, d, at, head + w + x, named);
  }


  /** An object starts with its type. */
  lemma ObjectFirstByte(t: Tree, base: int, len: nat, cache: Cache, c: Bytes, d: Bytes)
    requires t.Obj? && |c| == base + len && c + Write(t, base, len, cache).out <= d && TypesBelow(cache, base + len)
    ensures TypeAt(Snapshot(d), |c|) == if t.names in cache.types then T_OBJECT_THIN as int else T_OBJECT_FULL as int
  {
    hide WriteUpto, PutVarint, Words, Be32, NameBytes, NameOffsets;
    var out := Write(t, base, len, cache).out;
    assert |out| > 0 && d[|c|] == (c + out)[|c|] == out[0];
  }

  // ---- What has been written is stored in its shape ----

  ghost predicate Shaped(d: Bytes, off: int, t: Tree, known: set<seq<Bytes>>) {
    Denotes(Snapshot(d), off, t) && StoredOf(Snapshot(d), off, t) == Shape(t, known)
  }

  ghost predicate ShapedAll(d: Bytes, offs: seq<int>, ts: seq<Tree>, n: nat, known: set<seq<Bytes>>)
    requires n <= |ts| && n <= |offs|
  {
    forall i | 0 <= i < n :: Shaped(d, offs[i], ts[i], AfterUpto(ts, i, known))
  }

  lemma {:induction false} WrittenShaped(t: Tree, base: int, len: nat, cache: Cache, c: Bytes, d: Bytes)
    requires Proper(t) && 0 <= base && |c| == base + len && CacheOK(cache, c) && TypesBelow(cache, |c|)
    requires c + Write(t, base, len, cache).out <= d && |d| < TWO_31
    ensures Shaped(d, Write(t, base, len, cache).off, Repr(t), cache.types.Keys)
    decreases t, 0, 0
  {
    hide *;
    WriteCorrect(t, base, len, cache, c, d);
    WrittenParts(Write(t, base, len, cache), t, c, d);
    ProperParts(t);
    ReprParts(t);
    if t.Leaf? {
      LeafShaped(d, Write(t, base, len, cache).off, Repr(t), cache.types.Keys);
    } else if t.Arr? {
      var kids, whole, c' := ArrayHead(t.elems, base, len, cache, c, d);
      TypesStay(cache, |c|, |c'|);
      KidsShaped(t.elems, |t.elems|, base, len + |whole|, cache, c', d);
      ArrayShaped(d, |c|, Repr(t).elems, kids.offs, cache.types.Keys);
    } else {
      var kids, whole, c', cache' := ObjectHead(t, base, len, cache, c, d);
      TypesRemembered(t, cache, cache', |c|, |c'|);
      KidsShaped(t.vals, |t.vals|, base, len + |whole|, cache', c', d);
      ObjectFirstByte(t, base, len, cache, c, d);
      ObjectShaped(d, |c|, t.names, Repr(t).vals, kids.offs, cache.types.Keys);
    }
  }

  lemma ProperParts(t: Tree)
    requires Proper(t)
    ensures t.Arr? ==> |t.elems| < TWO_31 && forall i | 0 <= i < |t.elems| :: Proper(t.elems[i])
    ensures t.Obj? ==> |t.names| == |t.vals| && forall i | 0 <= i < |t.vals| :: Proper(t.vals[i])
  {
  }

  lemma ReprParts(t: Tree)
    ensures t.Leaf? ==> Repr(t).Leaf?
    ensures t.Arr? ==> Repr(t) == Arr(Reprs(t.elems, |t.elems|))
    ensures t.Obj? ==> Repr(t) == Obj(t.names, Reprs(t.vals, |t.vals|))
  {
  }

  lemma TypesStay(cache: Cache, at: int, at': int)
    requires TypesBelow(cache, at) && at <= at'
    ensures TypesBelow(cache, at')
  {
  }

  lemma TypesRemembered(t: Tree, cache: Cache, cache': Cache, at: int, at': int)
    requires t.Obj? && TypesBelow(cache, at) && at < at'
    requires cache' == if t.names in cache.types && cache.types[t.names] != at then cache
                       else cache.(types := cache.types[t.names := at])
    ensures TypesBelow(cache', at') && cache'.types.Keys == cache.types.Keys + {t.names}
  {
  }

  lemma LeafShaped(d: Bytes, off: int, t: Tree, known: set<seq<Bytes>>)
    requires t.Leaf? && Denotes(Snapshot(d), off, t)
    ensures Shaped(d, off, t, known)
  {
  }

  lemma ShapesStored(d: Bytes, offs: seq<int>, ts: seq<Tree>, known: set<seq<Bytes>>)
    requires |offs| == |ts| && ShapedAll(d, offs, ts, |ts|, known)
    ensures DenotesAll(Snapshot(d), offs, ts) && StoredAll(Snapshot(d), offs, ts) == Shapes(ts, |ts|, known)
  {
    hide Denotes, StoredOf, StoredAll, Shape, Shapes, AfterUpto;
    assert forall i | 0 <= i < |ts| :: Shaped(d, offs[i], ts[i], AfterUpto(ts, i, known));
    forall i | 0 <= i < |ts| ensures StoredAll(Snapshot(d), offs, ts)[i] == Shapes(ts, |ts|, known)[i] {
      StoredAt(Snapshot(d), offs, ts, i);
      ShapesAt(ts, |ts|, known, i);
    }
  }

  lemma ArrayShaped(d: Bytes, off: int, elems: seq<Tree>, offs: seq<int>, known: set<seq<Bytes>>)
    requires off >= 0 && Denotes(Snapshot(d), off, Arr(elems)) && RawNode(d, off) == Some(NArr(offs)) && |offs| == |elems|
    requires ShapedAll(d, offs, elems, |elems|, known)
    ensures Shaped(d, off, Arr(elems), known)
  {
    hide Denotes, RawNode, StoredAll, StoredOf, Shapes, ShapedAll;
    ShapesStored(d, offs, elems, known);
    StoredParts(Snapshot(d), off, Arr(elems));
  }

  lemma ObjectShaped(d: Bytes, off: int, names: seq<Bytes>, vals: seq<Tree>, offs: seq<int>, known: set<seq<Bytes>>)
    requires off >= 0 && Denotes(Snapshot(d), off, Obj(names, vals)) && |offs| == |vals|
    requires RawNode(d, off).Some? && RawNode(d, off).value.Slots() == offs
    requires TypeAt(Snapshot(d), off) == if names in known then T_OBJECT_THIN as int else T_OBJECT_FULL as int
    requires ShapedAll(d, offs, vals, |vals|, known + {names})
    ensures Shaped(d, off, Obj(names, vals), known)
  {
    hide Denotes, RawNode, StoredAll, StoredOf, Shapes, ShapedAll, TypeAt;
    ShapesStored(d, offs, vals, known + {names});
    StoredParts(Snapshot(d), off, Obj(names, vals));
  }

  lemma {:induction false} KidsShaped(ts: seq<Tree>, n: nat, base: int, len: nat, cache: Cache, c: Bytes, d: Bytes)
    requires n <= |ts| && 0 <= base && |c| == base + len && CacheOK(cache, c) && TypesBelow(cache, |c|)
    requires forall i | 0 <= i < |ts| :: Proper(ts[i])
    requires c + WriteUpto(ts, n, base, len, cache).out <= d && |d| < TWO_31
    ensures var r := WriteUpto(ts, n, base, len, cache);
            CacheOK(r.cache, c + r.out) && |r.offs| == n && ShapedAll(d, r.offs, Reprs(ts, |ts|), n, cache.types.Keys)
    decreases ts, 1, n
  {
    hide Write, WriteUpto, CacheOK, TypesBelow, Shaped, Proper, Laid, Repr, After, AfterUpto;
    WriteUptoCorrect(ts, n, base, len, cache, c, d);
    if n > 0 {
      var before := WriteUpto(ts, n - 1, base, len, cache);
      var last := Write(ts[n - 1], base, len + |before.out|, before.cache);
      WriteUptoStep(ts, n, base, len, cache);
      assert c + (before.out + last.out) == c + before.out + last.out;
      KidsShaped(ts, n - 1, base, len, cache, c, d);
      UptoTypes(ts, n - 1, base, len, cache);
      WrittenShaped(ts[n - 1], base, len + |before.out|, before.cache, c + before.out, d);
      assert Reprs(ts, |ts|)[n - 1] == Repr(ts[n - 1]);
    }
  }

  /** A snapshot is stored in the shape of its document. */
  lemma SnapShape(t: Tree)
    requires Proper(t) && |Snap(t)| < TWO_31
    ensures Denotes(Snapshot(Snap(t)), 0, Repr(t)) && StoredOf(Snapshot(Snap(t)), 0, Repr(t)) == Shape(Repr(t), {})
    ensures Doc(Shape(Repr(t), {})) == Repr(t)
  {
    hide Write, Denotes, StoredOf, CacheOK, Proper, Repr, Shape, Doc;
    ShapeDoc(Repr(t), {});
    FirstOffset(t);
    NothingCached();
    var r := Write(t, 0, 0, EMPTY);
    assert [] + r.out == r.out && EMPTY.types.Keys == {};
    WrittenShaped(t, 0, 0, EMPTY, [], Snap(t));
  }
}
