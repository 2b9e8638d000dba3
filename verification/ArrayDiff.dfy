/** Which elements of a new array can be taken from the old one: candidates are found
    by hash and confirmed by a deep comparison, so any hash function will do. */
module ArrayDiffs {
  import opened ByteCodec
  import opened Names
  import opened Trees
  import opened Reader
  import opened StoredShapes
  import opened Lookups
  import opened DeltaFormat

  /** Binary data is not supported inside arrays. */
  ghost predicate NoBlobs(t: Tree)
  {
    match t
    case Leaf(s) => !s.Blob?
    case Arr(elems) => forall i | 0 <= i < |elems| :: NoBlobs(elems[i])
    case Obj(_, vals) => forall i | 0 <= i < |vals| :: NoBlobs(vals[i])
  }

  lemma ProperKids(t: Tree)
    requires Proper(t)
    ensures forall i | 0 <= i < |t.Kids()| :: Proper(t.Kids()[i])
    ensures t.Obj? ==> |t.names| == |t.vals|
  {
  }

  lemma NoBlobsBelow(t: Tree)
    requires NoBlobs(t)
    ensures forall i | 0 <= i < |t.Kids()| :: NoBlobs(t.Kids()[i])
  {
  }

  /** Stored elements that can be compared. */
  ghost predicate Comparables(v: View, offs: seq<int>, ts: seq<Tree>) {
    DenotesAll(v, offs, ts) && forall i | 0 <= i < |ts| :: Proper(ts[i]) && NoBlobs(ts[i])
  }

  /** elementEqual: two elements are stored alike. The types are compared first, so an
      object that is full in one place and thin in another is not equal to itself. */
  method ElementEqual(a: View, aoff: int, b: View, boff: int, ghost ta: Tree, ghost tb: Tree) returns (eq: bool)
    requires Denotes(a, aoff, ta) && Denotes(b, boff, tb) && Proper(ta) && Proper(tb) && NoBlobs(ta) && NoBlobs(tb)
    ensures eq <==> StoredOf(a, aoff, ta) == StoredOf(b, boff, tb)
    ensures eq ==> ta == tb
    decreases ta
  {
    hide Denotes, NodeAt, Proper, NoBlobs, StoredOf, TypeAt, StoredAll;
    ProperKids(ta);
    ProperKids(tb);
    NoBlobsBelow(ta);
    NoBlobsBelow(tb);
    StoredType(a, aoff, ta);
    StoredType(b, boff, tb);
    StoredIsDoc(a, aoff, ta);
    StoredIsDoc(b, boff, tb);
    if TypeAt(a, aoff) != TypeAt(b, boff) {
      return false;
    }
    StoredParts(a, aoff, ta);
    StoredParts(b, boff, tb);
    var na := ReadDenoted(a, aoff, ta);
    var nb := ReadDenoted(b, boff, tb);
    if na.NLeaf? && nb.NLeaf? {
      return na.s == nb.s;
    } else if na.NArr? && nb.NArr? {
      if |na.offs| != |nb.offs| {
        return false;
      }
      eq := ElementsEqual(a, na.offs, b, nb.offs, ta.elems, tb.elems);
    } else if na.NObj? && nb.NObj? {
      if na.len != nb.len {
        return false;
      }
      eq := FieldsEqual(a, na.names, na.voffs, b, nb.names, nb.voffs, ta.vals, tb.vals);
    } else {
      return false;
    }
  }

  lemma PrefixOneMore<T>(xs: seq<T>, ys: seq<T>, i: nat)
    requires i < |xs| == |ys| && xs[..i] == ys[..i] && xs[i] == ys[i]
    ensures xs[..i + 1] == ys[..i + 1]
  {
    assert xs[..i + 1] == xs[..i] + [xs[i]] && ys[..i + 1] == ys[..i] + [ys[i]];
  }

  method ElementsEqual(a: View, aoffs: seq<int>, b: View, boffs: seq<int>, ghost tas: seq<Tree>, ghost tbs: seq<Tree>)
    returns (eq: bool)
    requires Comparables(a, aoffs, tas) && Comparables(b, boffs, tbs) && |tas| == |tbs|
    ensures eq <==> StoredAll(a, aoffs, tas) == StoredAll(b, boffs, tbs)
    decreases tas
  {
    hide Denotes, Proper, NoBlobs, StoredOf, StoredAll;
    ghost var sas, sbs := StoredAll(a, aoffs, tas), StoredAll(b, boffs, tbs);
    for i := 0 to |aoffs|
      invariant sas[..i] == sbs[..i]
    {
      var same := ElementEqual(a, aoffs[i], b, boffs[i], tas[i], tbs[i]);
      StoredAt(a, aoffs, tas, i);
      StoredAt(b, boffs, tbs, i);
      if !same {
        return false;
      }
      PrefixOneMore(sas, sbs, i);
    }
    assert sas[..|sas|] == sas && sbs[..|sas|] == sbs;
    return true;
  }

  /** Names and values side by side. */
  method FieldsEqual(a: View, anames: seq<Bytes>, aoffs: seq<int>, b: View, bnames: seq<Bytes>, boffs: seq<int>,
                     ghost tas: seq<Tree>, ghost tbs: seq<Tree>)
    returns (eq: bool)
    requires Comparables(a, aoffs, tas) && Comparables(b, boffs, tbs)
    requires |anames| == |tas| == |tbs| == |bnames|
    ensures eq <==> anames == bnames && StoredAll(a, aoffs, tas) == StoredAll(b, boffs, tbs)
    decreases tas
  {
    hide Denotes, Proper, NoBlobs, StoredOf, StoredAll;
    ghost var sas, sbs := StoredAll(a, aoffs, tas), StoredAll(b, boffs, tbs);
    for i := 0 to |aoffs|
      invariant sas[..i] == sbs[..i] && anames[..i] == bnames[..i]
    {
      if anames[i] != bnames[i] {
        return false;
      }
      var same := ElementEqual(a, aoffs[i], b, boffs[i], tas[i], tbs[i]);
      StoredAt(a, aoffs, tas, i);
      StoredAt(b, boffs, tbs, i);
      if !same {
        return false;
      }
      PrefixOneMore(sas, sbs, i);
      PrefixOneMore(anames, bnames, i);
    }
    assert sas[..|sas|] == sas && sbs[..|sas|] == sbs;
    assert anames[..|tas|] == anames && bnames[..|tas|] == bnames;
    return true;
  }

  // ---- Hashes ----

  function Be64(v: int): Bytes { Be32(v / TWO_32) + Be32(v) }

  /** What is fed to the hash for an element; full, thin and patched objects are
      hashed alike. */
  function HashStream(t: Tree): Bytes
    decreases t
  {
    match t
    case Leaf(s) => [Tag(s)] + (match s
                                case Str(text) => text
                                case Num(digits) => digits
                                case Int(i) => Be64(i)
                                case _ => [])
    case Arr(elems) => [T_ARRAY] + ElementStreams(elems, |elems|)
    case Obj(names, vals) => [T_OBJECT_FULL] + FieldStreams(names, vals, |vals|)
  }

  function ElementStreams(ts: seq<Tree>, n: nat): Bytes
    requires n <= |ts|
    decreases ts, n
  {
    if n == 0 then [] else ElementStreams(ts, n - 1) + HashStream(ts[n - 1])
  }

  function FieldStreams(names: seq<Bytes>, ts: seq<Tree>, n: nat): Bytes
    requires n <= |ts|
    decreases ts, n
  {
    if n == 0 then []
    else FieldStreams(names, ts, n - 1) + (if n <= |names| then names[n - 1] else []) + HashStream(ts[n - 1])
  }

  class HashCache {
    const content: View
    const sum: Bytes -> nat
    var hashes: map<int, nat>

    ghost predicate Valid()
      reads this
    {
      forall off, t | off in hashes && Denotes(content, off, t) :: hashes[off] == sum(HashStream(t))
    }

    constructor (content: View, sum: Bytes -> nat)
      ensures Valid() && this.content == content && this.sum == sum
    {
      this.content, this.sum := content, sum;
      hashes := map[];
    }

    /** The hash of an element, computed once for each offset. */
    method Hash(off: int, ghost t: Tree) returns (h: nat)
      requires Valid() && Denotes(content, off, t) && Proper(t) && NoBlobs(t)
      modifies this
      ensures Valid() && h == sum(HashStream(t))
    {
      if off in hashes {
        return hashes[off];
      }
      var stream := Feed(off, [], t);
      assert [] + HashStream(t) == HashStream(t);
      forall u | Denotes(content, off, u) ensures u == t {
        DenotesUnique(content, off, t, u);
      }
      hashes := hashes[off := sum(stream)];
      return sum(stream);
    }

    method Feed(off: int, fed: Bytes, ghost t: Tree) returns (r: Bytes)
      requires Denotes(content, off, t) && Proper(t) && NoBlobs(t)
      ensures r == fed + HashStream(t)
      decreases t
    {
      hide Denotes, Proper, NodeAt, NoBlobs, ElementStreams, FieldStreams;
      ProperKids(t);
      NoBlobsBelow(t);
      var n := ReadDenoted(content, off, t);
      match n {
        case NLeaf(s) =>
          r := FeedScalar(s, fed);
        case NArr(offs) =>
          r := FeedElements(offs, fed + [T_ARRAY], t.elems);
          Assoc(fed, [T_ARRAY], ElementStreams(t.elems, |t.elems|));
        case NObj(_, names, _, voffs) =>
          r := FeedFields(names, voffs, fed + [T_OBJECT_FULL], t.vals);
          Assoc(fed, [T_OBJECT_FULL], FieldStreams(names, t.vals, |t.vals|));
      }
    }

    method FeedScalar(s: Scalar, fed: Bytes) returns (r: Bytes)
      ensures r == fed + HashStream(Leaf(s))
    {
      hide Be64;
      r := fed + [Tag(s)];
      match s {
        case Str(text) => r := r + text;
        case Num(digits) => r := r + digits;
        case Int(i) => r := r + Be64(i);
        case _ =>
      }
    }

    method FeedElements(offs: seq<int>, fed: Bytes, ghost ts: seq<Tree>) returns (r: Bytes)
      requires Comparables(content, offs, ts)
      ensures r == fed + ElementStreams(ts, |ts|)
      decreases ts
    {
      hide Denotes, Proper, NoBlobs, HashStream;
      r := fed;
      for i := 0 to |offs|
        invariant r == fed + ElementStreams(ts, i)
      {
        Assoc(fed, ElementStreams(ts, i), HashStream(ts[i]));
        r := Feed(offs[i], r, ts[i]);
      }
    }

    method FeedFields(names: seq<Bytes>, offs: seq<int>, fed: Bytes, ghost ts: seq<Tree>) returns (r: Bytes)
      requires Comparables(content, offs, ts) && |names| == |ts|
      ensures r == fed + FieldStreams(names, ts, |ts|)
      decreases ts
    {
      hide Denotes, Proper, NoBlobs, HashStream;
      r := fed;
      for i := 0 to |offs|
        invariant r == fed + FieldStreams(names, ts, i)
      {
        Assoc(fed, FieldStreams(names, ts, i), names[i]);
        Assoc(fed, FieldStreams(names, ts, i) + names[i], HashStream(ts[i]));
        r := Feed(offs[i], r + names[i], ts[i]);
      }
    }
  }

  lemma Assoc(x: Bytes, y: Bytes, z: Bytes)
    ensures x + y + z == x + (y + z)
  {
  }

  // ---- arrayDiff ----

  /** One element of the new array: taken from the old array's offset or the new's. */
  datatype ArrayIndex = ArrayIndex(b: bool, offset: int)

  ghost predicate PicksOK(result: seq<ArrayIndex>, av: seq<int>, bv: seq<int>, sas: seq<Stored>, sbs: seq<Stored>)
    requires |av| == |sas| && |bv| == |sbs|
  {
    |result| <= |sbs| && forall i | 0 <= i < |result| ::
      result[i] == (var j := FirstEqual(sas, sbs[i]); if j >= 0 then ArrayIndex(false, av[j]) else ArrayIndex(true, bv[i]))
  }

  /** Every pick stands for the element of the new array, and is stored like it. */
  lemma PicksDenote(a: View, b: View, result: seq<ArrayIndex>, av: seq<int>, bv: seq<int>, tas: seq<Tree>, tbs: seq<Tree>)
    requires DenotesAll(a, av, tas) && DenotesAll(b, bv, tbs)
    requires PicksOK(result, av, bv, StoredAll(a, av, tas), StoredAll(b, bv, tbs))
    ensures forall i | 0 <= i < |result| ::
              && Denotes(if result[i].b then b else a, result[i].offset, tbs[i])
              && StoredOf(if result[i].b then b else a, result[i].offset, tbs[i]) == StoredOf(b, bv[i], tbs[i])
  {
    hide Denotes, FirstEqual, StoredOf, StoredAll;
    var sas, sbs := StoredAll(a, av, tas), StoredAll(b, bv, tbs);
    forall i | 0 <= i < |result|
      ensures Denotes(if result[i].b then b else a, result[i].offset, tbs[i])
      ensures StoredOf(if result[i].b then b else a, result[i].offset, tbs[i]) == StoredOf(b, bv[i], tbs[i])
    {
      var j := FirstEqual(sas, sbs[i]);
      assert result[i] == if j >= 0 then ArrayIndex(false, av[j]) else ArrayIndex(true, bv[i]);
      StoredAt(b, bv, tbs, i);
      if j >= 0 {
        StoredAt(a, av, tas, j);
        StoredIsDoc(a, av[j], tas[j]);
        StoredIsDoc(b, bv[i], tbs[i]);
      }
    }
  }

  lemma {:induction false} FirstEqualIs(ss: seq<Stored>, s: Stored, j: nat)
    requires j < |ss| && ss[j] == s && forall k | 0 <= k < j :: ss[k] != s
    ensures FirstEqual(ss, s) == j
  {
    var n := |ss| - 1;
    if j < n {
      FirstEqualIs(ss[..n], s, j);
    } else {
      FirstEqualNone(ss[..n], s);
    }
  }

  lemma {:induction false} FirstEqualNone(ss: seq<Stored>, s: Stored)
    requires forall k | 0 <= k < |ss| :: ss[k] != s
    ensures FirstEqual(ss, s) == -1
  {
    if ss != [] {
      FirstEqualNone(ss[..|ss| - 1], s);
    }
  }

  predicate Found(bucket: seq<nat>, j: nat) { exists k :: 0 <= k < |bucket| && bucket[k] == j }

  /** Each bucket lists, in order, exactly the elements with its hash. */
  ghost predicate Bucketed(ah: map<nat, seq<nat>>, hs: seq<nat>) {
    && (forall h, k | h in ah && 0 <= k < |ah[h]| :: ah[h][k] < |hs| && hs[ah[h][k]] == h)
    && (forall h, k, l | h in ah && 0 <= k < l < |ah[h]| :: ah[h][k] < ah[h][l])
    && (forall j | 0 <= j < |hs| :: hs[j] in ah && Found(ah[hs[j]], j))
  }

  lemma BucketedOneMore(ah: map<nat, seq<nat>>, hs: seq<nat>, h: nat, bucket: seq<nat>)
    requires Bucketed(ah, hs) && bucket == (if h in ah then ah[h] else [])
    ensures Bucketed(ah[h := bucket + [|hs|]], hs + [h])
  {
    var longer := bucket + [|hs|];
    var ah', hs' := ah[h := longer], hs + [h];
    forall g, k | g in ah' && 0 <= k < |ah'[g]| ensures ah'[g][k] < |hs'| && hs'[ah'[g][k]] == g {
      if g != h || k < |bucket| {
        assert ah'[g][k] == ah[g][k];
      }
    }
    forall j | 0 <= j < |hs'| ensures hs'[j] in ah' && Found(ah'[hs'[j]], j) {
      if j == |hs| {
        assert longer[|bucket|] == j;
      } else if hs[j] == h {
        FoundLonger(bucket, |hs|, j);
      }
    }
  }

  lemma NothingBucketed()
    ensures Bucketed(map[], [])
  {
  }

  lemma FoundLonger(bucket: seq<nat>, last: nat, j: nat)
    requires Found(bucket, j)
    ensures Found(bucket + [last], j)
  {
    var k :| 0 <= k < |bucket| && bucket[k] == j;
    assert (bucket + [last])[k] == j;
  }

  /** The hashes of an array's elements, in buckets. */
  method HashElements(hc: HashCache, offs: seq<int>, ghost ts: seq<Tree>) returns (ah: map<nat, seq<nat>>, hs: seq<nat>)
    requires hc.Valid() && Comparables(hc.content, offs, ts)
    modifies hc
    ensures hc.Valid() && |hs| == |ts| && Bucketed(ah, hs)
    ensures forall j | 0 <= j < |ts| :: hs[j] == hc.sum(HashStream(ts[j]))
  {
    hide Denotes, Proper, NoBlobs, HashStream, Bucketed, HashCache.Valid;
    ah, hs := map[], [];
    NothingBucketed();
    for i := 0 to |offs|
      invariant hc.Valid() && |hs| == i && Bucketed(ah, hs)
      invariant forall j | 0 <= j < i :: hs[j] == hc.sum(HashStream(ts[j]))
    {
      var h := hc.Hash(offs[i], ts[i]);
      var bucket := if h in ah then ah[h] else [];
      BucketedOneMore(ah, hs, h, bucket);
      ah := ah[h := bucket + [i]];
      hs := hs + [h];
    }
  }

  lemma NoneBefore(bucket: seq<nat>, i: nat, sas: seq<Stored>, sb: Stored)
    requires i < |bucket| && (forall k | 0 <= k < |bucket| :: bucket[k] < |sas|)
    requires forall k, l | 0 <= k < l < |bucket| :: bucket[k] < bucket[l]
    requires forall j | 0 <= j < |sas| && sas[j] == sb :: Found(bucket, j)
    requires forall k | 0 <= k < i :: sas[bucket[k]] != sb
    ensures forall j | 0 <= j < bucket[i] :: sas[j] != sb
  {
  }

  /** The first candidate with the same hash that is really equal. */
  method Candidate(a: View, av: seq<int>, b: View, boff: int, bucket: seq<nat>, ghost tas: seq<Tree>, ghost tb: Tree,
                   ghost sas: seq<Stored>, ghost sb: Stored)
    returns (r: int)
    requires Comparables(a, av, tas) && Denotes(b, boff, tb) && Proper(tb) && NoBlobs(tb)
    requires sas == StoredAll(a, av, tas) && sb == StoredOf(b, boff, tb)
    requires forall k | 0 <= k < |bucket| :: bucket[k] < |tas|
    requires forall k, l | 0 <= k < l < |bucket| :: bucket[k] < bucket[l]
    requires forall j | 0 <= j < |sas| && sas[j] == sb :: Found(bucket, j)
    ensures r == FirstEqual(sas, sb)
  {
    hide Denotes, Proper, NoBlobs, FirstEqual, StoredOf, StoredAll;
    for i := 0 to |bucket|
      invariant forall k | 0 <= k < i :: sas[bucket[k]] != sb
    {
      StoredAt(a, av, tas, bucket[i]);
      var eq := ElementEqual(a, av[bucket[i]], b, boff, tas[bucket[i]], tb);
      if eq {
        NoneBefore(bucket, i, sas, sb);
        FirstEqualIs(sas, sb, bucket[i]);
        return bucket[i];
      }
    }
    FirstEqualNone(sas, sb);
    return -1;
  }

  /** The bucket of a hash holds every element equal to one that hashes to it: elements
      that are stored alike are the same document, and only that is hashed. */
  lemma BucketHoldsEquals(ah: map<nat, seq<nat>>, hs: seq<nat>, ss: seq<Stored>, sum: Bytes -> nat, s: Stored, bucket: seq<nat>)
    requires Bucketed(ah, hs) && |hs| == |ss| && forall j | 0 <= j < |ss| :: hs[j] == sum(HashStream(Docs(ss)[j]))
    requires var h := sum(HashStream(Doc(s))); bucket == if h in ah then ah[h] else []
    ensures forall k | 0 <= k < |bucket| :: bucket[k] < |ss|
    ensures forall k, l | 0 <= k < l < |bucket| :: bucket[k] < bucket[l]
    ensures forall j | 0 <= j < |ss| && ss[j] == s :: Found(bucket, j)
  {
    hide HashStream, Doc;
    forall j | 0 <= j < |ss| && ss[j] == s ensures Found(bucket, j) {
      DocsAt(ss, j);
    }
  }

  /** arrayDiff. */
  method ArrayDiff(hca: HashCache, av: seq<int>, hcb: HashCache, bv: seq<int>, ghost tas: seq<Tree>, ghost tbs: seq<Tree>)
    returns (result: seq<ArrayIndex>, changes: bool)
    requires hca != hcb && hca.Valid() && hcb.Valid() && hca.sum == hcb.sum
    requires Comparables(hca.content, av, tas) && Comparables(hcb.content, bv, tbs)
    modifies hca, hcb
    ensures hca.Valid() && hcb.Valid()
    ensures changes <==> !SameArray(av, StoredAll(hca.content, av, tas), StoredAll(hcb.content, bv, tbs))
    ensures !changes ==> tas == tbs
    ensures changes ==>
              |result| == |tbs| && PicksOK(result, av, bv, StoredAll(hca.content, av, tas), StoredAll(hcb.content, bv, tbs))
  {
    hide Denotes, Proper, NoBlobs, HashStream, Bucketed, FirstEqual, HashCache.Valid, StoredOf, StoredAll, Docs;
    ghost var sas, sbs := StoredAll(hca.content, av, tas), StoredAll(hcb.content, bv, tbs);
    StoredAllDocs(hca.content, av, tas);
    StoredAllDocs(hcb.content, bv, tbs);
    var ah, ahl := HashElements(hca, av, tas);
    var bh, bhl := HashElements(hcb, bv, tbs);
    result := [];
    for i := 0 to |bhl|
      invariant hca.Valid() && hcb.Valid()
      invariant |result| == i && PicksOK(result, av, bv, sas, sbs)
    {
      var h := bhl[i];
      var bucket := if h in ah then ah[h] else [];
      DocsAt(sbs, i);
      BucketHoldsEquals(ah, ahl, sas, hca.sum, sbs[i], bucket);
      StoredAt(hcb.content, bv, tbs, i);
      var j := Candidate(hca.content, av, hcb.content, bv[i], bucket, tas, tbs[i], sas, sbs[i]);
      result := result + [if j >= 0 then ArrayIndex(false, av[j]) else ArrayIndex(true, bv[i])];
    }
    changes := true;
    if |av| != |bv| {
      return;
    }
    for i := 0 to |result|
      invariant hca.Valid() && hcb.Valid()
      invariant forall k | 0 <= k < i :: !result[k].b && result[k].offset == av[k]
    {
      ghost var j := FirstEqual(sas, sbs[i]);
      assert result[i] == if j >= 0 then ArrayIndex(false, av[j]) else ArrayIndex(true, bv[i]);
      if result[i].b || result[i].offset != av[i] {
        return;
      }
    }
    SameArrayIsEqual(hca.content, av, tas, sbs);
    return [], false;
  }
}
