/** The hash of in-memory JSON: entries of tables and members of sets are hashed one by
    one and summed, so that neither their order nor the representation matters. */
module JsonHashes {
  import opened ByteCodec
  import opened JsonValues

  const HASH_NULL := 0
  const HASH_BOOL := 1
  const HASH_FLOAT := 2
  const HASH_STRING := 3
  const HASH_ARRAY := 4
  const HASH_OBJECT := 5
  const HASH_SET := 6

  /** Any hash of bytes, and any bytes for numbers. */
  datatype Hasher = Hasher(sum: Bytes -> nat, number: int -> Bytes)

  function Be64(v: nat): (r: Bytes)
    ensures |r| == 8
  {
    Be32(v / TWO_32) + Be32(v)
  }

  /** A sum of hashes in eight bytes, the first of which is replaced by the type. */
  function Marked(t: Byte, sum: nat): Bytes { [t] + Be64(sum)[1..] }

  function Joined(parts: seq<Bytes>, n: nat): Bytes
    requires n <= |parts|
  {
    if n == 0 then [] else Joined(parts, n - 1) + parts[n - 1]
  }

  /** The running sum of the first `n` hashes, in 64 bits. */
  function Sum(hs: seq<int>, n: nat): nat
    requires n <= |hs|
  {
    if n == 0 then 0 else (Sum(hs, n - 1) + hs[n - 1]) % TWO_64
  }

  function EntryHashes(h: Hasher, ks: seq<Bytes>, vs: seq<Bytes>): (r: seq<int>)
    ensures |r| == if |ks| == |vs| then |ks| else 0
  {
    if |ks| == |vs| then seq(|ks|, i requires 0 <= i < |ks| && |ks| == |vs| => h.sum(ks[i] + vs[i])) else []
  }

  function MemberHashes(h: Hasher, ms: seq<Bytes>): (r: seq<int>)
    ensures |r| == |ms|
  {
    seq(|ms|, i requires 0 <= i < |ms| => h.sum(ms[i]))
  }

  function ObjectStream(h: Hasher, ks: seq<Bytes>, vs: seq<Bytes>): Bytes {
    Marked(HASH_OBJECT, Sum(EntryHashes(h, ks, vs), |EntryHashes(h, ks, vs)|))
  }

  /** hashImpl: what is fed to the hash for a value. */
  function Stream(h: Hasher, j: Json): Bytes
    decreases j
  {
    match j
    case Null => [HASH_NULL]
    case Bool(b) => [HASH_BOOL, if b then 1 else 0]
    case Num(n) => [HASH_FLOAT] + h.number(n)
    case Str(s) => [HASH_STRING] + s
    case Arr(elems) =>
      Joined(seq(|elems|, i requires 0 <= i < |elems| => Stream(h, elems[i])), |elems|) + [HASH_ARRAY]
    case Obj(names, vals) =>
      ObjectStream(h, seq(|names|, i requires 0 <= i < |names| => [HASH_STRING] + names[i]),
                   seq(|vals|, i requires 0 <= i < |vals| => Stream(h, vals[i])))
    case Table(keys, items) =>
      ObjectStream(h, seq(|keys|, i requires 0 <= i < |keys| => Stream(h, keys[i])),
                   seq(|items|, i requires 0 <= i < |items| => Stream(h, items[i])))
    case Set(members) =>
      Marked(HASH_SET, Sum(MemberHashes(h, seq(|members|, i requires 0 <= i < |members| => Stream(h, members[i]))), |members|))
  }

  function Hash(h: Hasher, j: Json): nat { h.sum(Stream(h, j)) }

  function Streams(h: Hasher, js: seq<Json>): (r: seq<Bytes>)
    ensures |r| == |js|
  {
    seq(|js|, i requires 0 <= i < |js| => Stream(h, js[i]))
  }

  lemma StreamOfObject(h: Hasher, j: Json)
    requires j.Obj? || j.Table?
    ensures Stream(h, j) == ObjectStream(h, Streams(h, Keys(j)), Streams(h, Items(j)))
  {
    hide ObjectStream;
    if j.Obj? {
      assert Streams(h, Keys(j)) == seq(|j.names|, i requires 0 <= i < |j.names| => [HASH_STRING] + j.names[i]);
    } else {
      assert Streams(h, Keys(j)) == seq(|j.keys|, i requires 0 <= i < |j.keys| => Stream(h, j.keys[i]));
    }
    assert Streams(h, Items(j)) == seq(|Items(j)|, i requires 0 <= i < |Items(j)| => Stream(h, Items(j)[i]));
  }

  lemma StreamOfSet(h: Hasher, j: Json)
    requires j.Set?
    ensures Stream(h, j) == Marked(HASH_SET, Sum(MemberHashes(h, Streams(h, j.members)), |j.members|))
  {
    assert Streams(h, j.members) == seq(|j.members|, i requires 0 <= i < |j.members| => Stream(h, j.members[i]));
  }

  lemma StreamOfArray(h: Hasher, j: Json)
    requires j.Arr?
    ensures Stream(h, j) == Joined(Streams(h, j.elems), |j.elems|) + [HASH_ARRAY]
  {
    assert Streams(h, j.elems) == seq(|j.elems|, i requires 0 <= i < |j.elems| => Stream(h, j.elems[i]));
  }

  // ---- Sums do not depend on the order ----

  /** The sum of a map's values. */
  ghost function MapSum(m: map<Val, int>): nat
    decreases |m|
  {
    if m == map[] then 0
    else
      var k :| k in m;
      SmallerMap(m, k);
      (MapSum(m - {k}) + m[k]) % TWO_64
  }

  lemma SmallerMap(m: map<Val, int>, k: Val)
    requires k in m
    ensures |m - {k}| == |m| - 1
  {
    assert (m - {k}).Keys == m.Keys - {k};
    assert |(m - {k}).Keys| == |m.Keys| - 1;
  }

  lemma AddSwap(x: int, y: int, z: int)
    ensures ((x + y) % TWO_64 + z) % TWO_64 == ((x + z) % TWO_64 + y) % TWO_64
  {
  }

  lemma {:induction false} MapSumWithout(m: map<Val, int>, k: Val)
    requires k in m
    ensures MapSum(m) == (MapSum(m - {k}) + m[k]) % TWO_64
    decreases |m|
  {
    var l :| l in m && MapSum(m) == (MapSum(m - {l}) + m[l]) % TWO_64;
    if l != k {
      SmallerMap(m, l);
      SmallerMap(m, k);
      MapSumWithout(m - {l}, k);
      MapSumWithout(m - {k}, l);
      assert m - {l} - {k} == m - {k} - {l};
      AddSwap(MapSum(m - {l} - {k}), m[k], m[l]);
    }
  }

  lemma {:induction false} SumIsMapSum(ks: seq<Val>, hs: seq<int>, n: nat)
    requires n <= |ks| && n <= |hs| && Distinct(ks)
    ensures Sum(hs, n) == MapSum(Zip(ks, hs, n))
  {
    if n > 0 {
      SumIsMapSum(ks, hs, n - 1);
      ZipOnly(ks, hs, n - 1);
      var m, k := Zip(ks, hs, n - 1), ks[n - 1];
      assert k !in m;
      MapSumWithout(m[k := hs[n - 1]], k);
      assert m[k := hs[n - 1]] - {k} == m;
    }
  }

  /** Lists of hashes that belong to the same keys have the same sum. */
  lemma SameSums(ks: seq<Val>, hs: seq<int>, ls: seq<Val>, gs: seq<int>)
    requires |ks| == |hs| == |ls| == |gs| && Distinct(ks) && Distinct(ls)
    requires forall i | 0 <= i < |ks| :: HasPair(ls, gs, ks[i], hs[i])
    ensures Sum(hs, |hs|) == Sum(gs, |gs|)
  {
    hide HasPair;
    SameMaps(ks, hs, ls, gs);
    SumIsMapSum(ks, hs, |ks|);
    SumIsMapSum(ls, gs, |ls|);
  }

  // ---- Equal values have equal hashes ----

  /** Values that mean the same are fed to the hash as the same bytes. */
  lemma {:induction false} SameStream(h: Hasher, a: Json, b: Json)
    requires Proper(a) && Proper(b) && Sem(a) == Sem(b)
    ensures Stream(h, a) == Stream(h, b)
    decreases Size(a) + Size(b), 1
  {
    if a.Arr? && b.Arr? {
      SameArrayStream(h, a, b);
    } else if (a.Obj? || a.Table?) && (b.Obj? || b.Table?) {
      SameObjectStream(h, a, b);
    } else if a.Set? && b.Set? {
      SameSetStream(h, a, b);
    } else {
      SameScalarStream(h, a, b);
    }
  }

  lemma SameScalarStream(h: Hasher, a: Json, b: Json)
    requires !(a.Arr? && b.Arr?) && !(a.Set? && b.Set?) && !((a.Obj? || a.Table?) && (b.Obj? || b.Table?))
    requires Sem(a) == Sem(b)
    ensures Stream(h, a) == Stream(h, b)
  {
  }

  lemma {:induction false} SameArrayStream(h: Hasher, a: Json, b: Json)
    requires a.Arr? && b.Arr? && Proper(a) && Proper(b) && Sem(a) == Sem(b)
    ensures Stream(h, a) == Stream(h, b)
    decreases Size(a) + Size(b), 0
  {
    SemOfArray(a);
    SemOfArray(b);
    SmallerElements(a);
    SmallerElements(b);
    assert |Sems(a.elems)| == |Sems(b.elems)|;
    forall i | 0 <= i < |a.elems| ensures Streams(h, a.elems)[i] == Streams(h, b.elems)[i] {
      assert Sems(a.elems)[i] == Sems(b.elems)[i];
      SameStream(h, a.elems[i], b.elems[i]);
    }
    StreamOfArray(h, a);
    StreamOfArray(h, b);
    assert Streams(h, a.elems) == Streams(h, b.elems);
  }

  lemma {:induction false} SameObjectStream(h: Hasher, a: Json, b: Json)
    requires (a.Obj? || a.Table?) && (b.Obj? || b.Table?) && Proper(a) && Proper(b) && Sem(a) == Sem(b)
    ensures Stream(h, a) == Stream(h, b)
    decreases Size(a) + Size(b), 0
  {
    hide Sem, Stream, Keys, Items, Size, Marked, Sum;
    ProperObject(a);
    ProperObject(b);
    SameEntriesMean(a, b);
    StreamOfObject(h, a);
    StreamOfObject(h, b);
    var hs := EntryHashes(h, Streams(h, Keys(a)), Streams(h, Items(a)));
    var gs := EntryHashes(h, Streams(h, Keys(b)), Streams(h, Items(b)));
    forall i | 0 <= i < |hs| ensures HasPair(Sems(Keys(b)), gs, Sems(Keys(a))[i], hs[i]) {
      SameEntryHash(h, a, b, i);
    }
    SameSums(Sems(Keys(a)), hs, Sems(Keys(b)), gs);
  }

  lemma {:induction false} SameEntryHash(h: Hasher, a: Json, b: Json, i: nat)
    requires (a.Obj? || a.Table?) && (b.Obj? || b.Table?) && Proper(a) && Proper(b) && SameEntries(a, b) && i < |Keys(a)|
    ensures |Keys(a)| == |Items(a)| && |Keys(b)| == |Items(b)|
    ensures HasPair(Sems(Keys(b)), EntryHashes(h, Streams(h, Keys(b)), Streams(h, Items(b))),
                    Sems(Keys(a))[i], EntryHashes(h, Streams(h, Keys(a)), Streams(h, Items(a)))[i])
    decreases Size(a) + Size(b), 0, 0
  {
    hide Sem, Stream, Keys, Items, Size;
    ProperObject(a);
    ProperObject(b);
    SmallerElements(a);
    SmallerElements(b);
    assert HasEntry(b, Sem(Keys(a)[i]), Sem(Items(a)[i]));
    var j :| 0 <= j < |Keys(b)| && j < |Items(b)| && Sem(Keys(b)[j]) == Sem(Keys(a)[i]) && Sem(Items(b)[j]) == Sem(Items(a)[i]);
    SameStream(h, Keys(a)[i], Keys(b)[j]);
    SameStream(h, Items(a)[i], Items(b)[j]);
    var gs := EntryHashes(h, Streams(h, Keys(b)), Streams(h, Items(b)));
    assert gs[j] == EntryHashes(h, Streams(h, Keys(a)), Streams(h, Items(a)))[i];
    assert Sems(Keys(b))[j] == Sems(Keys(a))[i];
  }

  lemma {:induction false} SameSetStream(h: Hasher, a: Json, b: Json)
    requires a.Set? && b.Set? && Proper(a) && Proper(b) && Sem(a) == Sem(b)
    ensures Stream(h, a) == Stream(h, b)
    decreases Size(a) + Size(b), 0
  {
    hide Sem, Stream, Size, Marked, Sum;
    SemOfSet(a);
    SemOfSet(b);
    SmallerElements(a);
    SmallerElements(b);
    StreamOfSet(h, a);
    StreamOfSet(h, b);
    var s, t := Sems(a.members), Sems(b.members);
    SameSets(s, t);
    var hs, gs := MemberHashes(h, Streams(h, a.members)), MemberHashes(h, Streams(h, b.members));
    forall i | 0 <= i < |s| ensures HasPair(t, gs, s[i], hs[i]) {
      assert s[i] in t;
      var j :| 0 <= j < |t| && t[j] == s[i];
      SameStream(h, a.members[i], b.members[j]);
      assert gs[j] == hs[i];
    }
    SameSums(s, hs, t, gs);
  }

  /** Equality implies equal hash: whatever the insertion order, the representation of
      objects, and the hash function. */
  lemma EqualHash(h: Hasher, a: Json, b: Json)
    requires Proper(a) && Proper(b) && EqualOp(a, b)
    ensures Hash(h, a) == Hash(h, b)
  {
    EqualMeans(a, b);
    SameStream(h, a, b);
  }

  // ---- What a hash can tell apart ----

  /** Scalars that feed the same bytes are the same: nothing of a text or a truth value is
      left out, and of a number as much as it is hashed by. */
  lemma ScalarStreams(h: Hasher, j: Json, k: Json)
    requires (j.Null? || j.Bool? || j.Num? || j.Str?) && (k.Null? || k.Bool? || k.Num? || k.Str?)
    ensures Stream(h, j) == Stream(h, k) <==>
              || j == k
              || (j.Num? && k.Num? && h.number(j.number) == h.number(k.number))
  {
    var s, t := Stream(h, j), Stream(h, k);
    if s == t {
      assert s[0] == t[0];
      assert s[1..] == t[1..];
    }
  }

  /** Every element of an array feeds its own bytes, in order. */
  lemma ArrayStream(h: Hasher, elems: seq<Json>, last: Json)
    ensures Stream(h, Arr(elems + [last])) ==
              Stream(h, Arr(elems))[..|Stream(h, Arr(elems))| - 1] + Stream(h, last) + [HASH_ARRAY]
  {
    hide Stream;
    StreamOfArray(h, Arr(elems));
    StreamOfArray(h, Arr(elems + [last]));
    var ps, qs := Streams(h, elems), Streams(h, elems + [last]);
    assert qs == ps + [Stream(h, last)];
    JoinedMore(ps, qs, |ps|);
  }

  lemma {:induction false} JoinedMore(ps: seq<Bytes>, qs: seq<Bytes>, n: nat)
    requires n <= |ps| <= |qs| && forall i | 0 <= i < |ps| :: qs[i] == ps[i]
    ensures Joined(qs, n) == Joined(ps, n)
  {
    if n > 0 {
      JoinedMore(ps, qs, n - 1);
    }
  }
}
