/** In-memory JSON values with their equality and hash. Objects come in two
    representations, and the entries of tables and sets in any order. */
module JsonValues {
  import opened ByteCodec
  import opened Names

  /** `Obj` is an object with text names; `Table` is the object of evaluation, whose keys
      are any values; numbers are told apart by their value. */
  datatype Json =
    | Null
    | Bool(truth: bool)
    | Num(number: int)
    | Str(text: Bytes)
    | Arr(elems: seq<Json>)
    | Obj(names: seq<Bytes>, vals: seq<Json>)
    | Table(keys: seq<Json>, items: seq<Json>)
    | Set(members: seq<Json>)

  // ---- What a value means ----

  datatype Val =
    | VNull
    | VBool(truth: bool)
    | VNum(number: int)
    | VStr(text: Bytes)
    | VArr(elems: seq<Val>)
    | VObj(fields: map<Val, Val>)
    | VSet(members: set<Val>)

  /** The map of the first `n` keys to their values. */
  function Zip<K, V>(ks: seq<K>, vs: seq<V>, n: nat): map<K, V>
    requires n <= |ks| && n <= |vs|
  {
    if n == 0 then map[] else Zip(ks, vs, n - 1)[ks[n - 1] := vs[n - 1]]
  }

  function Zipped<K, V>(ks: seq<K>, vs: seq<V>): map<K, V> {
    if |ks| == |vs| then Zip(ks, vs, |ks|) else map[]
  }

  function ToSet<T>(s: seq<T>): set<T> { set i | 0 <= i < |s| :: s[i] }

  function Sem(j: Json): Val
    decreases j
  {
    match j
    case Null => VNull
    case Bool(b) => VBool(b)
    case Num(n) => VNum(n)
    case Str(s) => VStr(s)
    case Arr(elems) => VArr(seq(|elems|, i requires 0 <= i < |elems| => Sem(elems[i])))
    case Obj(names, vals) =>
      VObj(Zipped(seq(|names|, i requires 0 <= i < |names| => VStr(names[i])),
                  seq(|vals|, i requires 0 <= i < |vals| => Sem(vals[i]))))
    case Table(keys, items) =>
      VObj(Zipped(seq(|keys|, i requires 0 <= i < |keys| => Sem(keys[i])),
                  seq(|items|, i requires 0 <= i < |items| => Sem(items[i]))))
    case Set(members) => VSet(ToSet(seq(|members|, i requires 0 <= i < |members| => Sem(members[i]))))
  }

  function Sems(js: seq<Json>): (r: seq<Val>)
    ensures |r| == |js|
  {
    seq(|js|, i requires 0 <= i < |js| => Sem(js[i]))
  }

  function StrKeys(names: seq<Bytes>): (r: seq<Json>)
    ensures |r| == |names|
  {
    seq(|names|, i requires 0 <= i < |names| => Str(names[i]))
  }

  /** The entries of an object of either representation. */
  function Keys(j: Json): seq<Json>
    requires j.Obj? || j.Table?
  {
    if j.Obj? then StrKeys(j.names) else j.keys
  }

  function Items(j: Json): seq<Json>
    requires j.Obj? || j.Table?
  {
    if j.Obj? then j.vals else j.items
  }

  lemma SemOfObject(j: Json)
    requires j.Obj? || j.Table?
    ensures Sem(j) == VObj(Zipped(Sems(Keys(j)), Sems(Items(j))))
  {
    if j.Obj? {
      assert Sems(Keys(j)) == seq(|j.names|, i requires 0 <= i < |j.names| => VStr(j.names[i]));
    } else {
      assert Sems(j.keys) == seq(|j.keys|, i requires 0 <= i < |j.keys| => Sem(j.keys[i]));
    }
    assert Sems(Items(j)) == seq(|Items(j)|, i requires 0 <= i < |Items(j)| => Sem(Items(j)[i]));
  }

  ghost predicate Distinct<T>(s: seq<T>) { forall i, j | 0 <= i < j < |s| :: s[i] != s[j] }

  /** Tables hold each key once and sets each member once, at every level; the names of
      an object are sorted. */
  ghost predicate Proper(j: Json)
    decreases j
  {
    match j
    case Arr(elems) => forall i | 0 <= i < |elems| :: Proper(elems[i])
    case Obj(names, vals) => |names| == |vals| && Ascending(names) && forall i | 0 <= i < |vals| :: Proper(vals[i])
    case Table(keys, items) =>
      && |keys| == |items| && Distinct(Sems(keys))
      && (forall i | 0 <= i < |keys| :: Proper(keys[i])) && (forall i | 0 <= i < |items| :: Proper(items[i]))
    case Set(members) => Distinct(Sems(members)) && forall i | 0 <= i < |members| :: Proper(members[i])
    case _ => true
  }

  lemma ProperObject(j: Json)
    requires (j.Obj? || j.Table?) && Proper(j)
    ensures |Keys(j)| == |Items(j)| && Distinct(Sems(Keys(j)))
    ensures forall i | 0 <= i < |Keys(j)| :: Proper(Keys(j)[i])
    ensures forall i | 0 <= i < |Items(j)| :: Proper(Items(j)[i])
  {
    if j.Obj? {
      forall i, k | 0 <= i < k < |j.names| ensures Sems(Keys(j))[i] != Sems(Keys(j))[k] {
        LessIsStrict(j.names[i], j.names[k]);
      }
    }
  }

  // ---- Sizes ----

  function Size(j: Json): nat
    decreases j, 0
  {
    match j
    case Arr(elems) => 1 + Sizes(elems, |elems|)
    case Obj(names, vals) => 1 + |names| + Sizes(vals, |vals|)
    case Table(keys, items) => 1 + Sizes(keys, |keys|) + Sizes(items, |items|)
    case Set(members) => 1 + Sizes(members, |members|)
    case _ => 1
  }

  function Sizes(js: seq<Json>, n: nat): nat
    requires n <= |js|
    decreases js, n
  {
    if n == 0 then 0 else Sizes(js, n - 1) + Size(js[n - 1])
  }

  lemma {:induction false} SizeOfElement(js: seq<Json>, n: nat, i: nat)
    requires i < n <= |js|
    ensures Size(js[i]) <= Sizes(js, n)
  {
    hide Size;
    if i < n - 1 {
      SizeOfElement(js, n - 1, i);
    }
  }

  lemma SmallerElements(j: Json)
    ensures j.Arr? ==> forall i | 0 <= i < |j.elems| :: Size(j.elems[i]) < Size(j)
    ensures j.Set? ==> forall i | 0 <= i < |j.members| :: Size(j.members[i]) < Size(j)
    ensures j.Obj? || j.Table? ==> forall i | 0 <= i < |Keys(j)| :: Size(Keys(j)[i]) < Size(j)
    ensures j.Obj? || j.Table? ==> forall i | 0 <= i < |Items(j)| :: Size(Items(j)[i]) < Size(j)
    ensures j.Obj? ==> forall i | 0 <= i < |j.vals| :: Size(j.vals[i]) < Size(j)
    ensures j.Table? ==> forall i | 0 <= i < |j.keys| :: Size(j.keys[i]) < Size(j)
    ensures j.Table? ==> forall i | 0 <= i < |j.items| :: Size(j.items[i]) < Size(j)
    ensures j.Table? ==> Sizes(j.keys, |j.keys|) < Size(j)
    ensures j.Set? ==> Sizes(j.members, |j.members|) < Size(j)
  {
    var js := if j.Arr? then j.elems else if j.Set? then j.members else if j.Obj? || j.Table? then Items(j) else [];
    forall i | 0 <= i < |js| ensures Size(js[i]) <= Sizes(js, |js|) {
      SizeOfElement(js, |js|, i);
    }
    if j.Table? {
      forall i | 0 <= i < |j.keys| ensures Size(j.keys[i]) <= Sizes(j.keys, |j.keys|) {
        SizeOfElement(j.keys, |j.keys|, i);
      }
    }
  }

  // ---- equalOp ----

  /** equalOp: tables are compared by length and by looking up each entry of one in the
      other. */
  predicate EqualOp(a: Json, b: Json)
    decreases Size(a) + Size(b), 1
  {
    SmallerElements(a);
    SmallerElements(b);
    match a
    case Arr(elems) => b.Arr? && |elems| == |b.elems| && forall i | 0 <= i < |elems| :: EqualOp(elems[i], b.elems[i])
    case Obj(names, vals) =>
      if b.Obj? then names == b.names && |vals| == |b.vals| && forall i | 0 <= i < |vals| :: EqualOp(vals[i], b.vals[i])
      else b.Table? && EqualMixed(a, b)
    case Table(keys, items) =>
      if b.Obj? then EqualMixed(b, a) else b.Table? && EqualTables(a, b)
    case Set(members) => b.Set? && |members| == |b.members| && forall i | 0 <= i < |members| :: Find(b.members, members[i], |b.members|) >= 0
    case _ => a == b
  }

  /** The first of the keys that equals `k`, among the last `n`, or -1. */
  function Find(keys: seq<Json>, k: Json, n: nat): (r: int)
    requires n <= |keys|
    ensures -1 <= r < |keys|
    decreases Sizes(keys, |keys|) + Size(k) + 1, 0, n
  {
    if n == 0 then -1
    else
      var i := |keys| - n;
      SizeOfElement(keys, |keys|, i);
      if EqualOp(keys[i], k) then i else Find(keys, k, n - 1)
  }

  /** An object with text names against a table: every key of the table is a name of the
      object, with an equal value. */
  predicate EqualMixed(a: Json, b: Json)
    requires a.Obj? && b.Table?
    decreases Size(a) + Size(b), 0, 1
  {
    SmallerElements(a);
    SmallerElements(b);
    |a.names| == |a.vals| == |b.keys| == |b.items| && forall i | 0 <= i < |b.keys| :: NameFound(a, b, i)
  }

  predicate NameFound(a: Json, b: Json, i: nat)
    requires a.Obj? && b.Table? && |a.names| == |a.vals| == |b.keys| == |b.items| && i < |b.keys|
    decreases Size(a) + Size(b), 0, 0
  {
    SmallerElements(a);
    SmallerElements(b);
    b.keys[i].Str? && b.keys[i].text in a.names && EqualOp(a.vals[NameAt(a.names, b.keys[i].text)], b.items[i])
  }

  function NameAt(names: seq<Bytes>, name: Bytes): (r: nat)
    requires name in names
    ensures r < |names| && names[r] == name
  {
    if names[0] == name then 0 else 1 + NameAt(names[1..], name)
  }

  predicate EqualTables(a: Json, b: Json)
    requires a.Table? && b.Table?
    decreases Size(a) + Size(b), 0, 1
  {
    SmallerElements(a);
    SmallerElements(b);
    |a.keys| == |a.items| == |b.keys| == |b.items| && forall i | 0 <= i < |a.keys| :: KeyFound(a, b, i)
  }

  predicate KeyFound(a: Json, b: Json, i: nat)
    requires a.Table? && b.Table? && |a.keys| == |a.items| == |b.keys| == |b.items| && i < |a.keys|
    decreases Size(a) + Size(b), 0, 0
  {
    SmallerElements(a);
    SmallerElements(b);
    var j := Find(b.keys, a.keys[i], |b.keys|);
    j >= 0 && EqualOp(a.items[i], b.items[j])
  }

  // ---- Maps and sets given by their entries ----

  lemma {:induction false} ZipHas<K, V>(ks: seq<K>, vs: seq<V>, n: nat, i: nat)
    requires i < n <= |ks| && n <= |vs| && Distinct(ks)
    ensures ks[i] in Zip(ks, vs, n) && Zip(ks, vs, n)[ks[i]] == vs[i]
  {
    if i < n - 1 {
      ZipHas(ks, vs, n - 1, i);
      assert ks[i] != ks[n - 1];
    }
  }

  lemma {:induction false} ZipOnly<K, V>(ks: seq<K>, vs: seq<V>, n: nat)
    requires n <= |ks| && n <= |vs| && Distinct(ks)
    ensures forall k | k in Zip(ks, vs, n) :: exists i :: 0 <= i < n && ks[i] == k
    ensures |Zip(ks, vs, n)| == n
  {
    if n > 0 {
      ZipOnly(ks, vs, n - 1);
      var m := Zip(ks, vs, n - 1);
      assert ks[n - 1] !in m;
      OneMoreKey(m, ks[n - 1], vs[n - 1]);
      forall k | k in Zip(ks, vs, n) ensures exists i :: 0 <= i < n && ks[i] == k {
        if k == ks[n - 1] {
          assert ks[n - 1] == k;
        } else {
          assert k in m;
        }
      }
    }
  }

  lemma OneMoreKey<K, V>(m: map<K, V>, k: K, v: V)
    requires k !in m
    ensures |m[k := v]| == |m| + 1
  {
    assert m[k := v].Keys == m.Keys + {k};
    assert |m.Keys| == |m|;
  }

  /** A map is covered by another of the same size only if they are equal. */
  lemma CoveredIsEqual<K, V>(m: map<K, V>, w: map<K, V>)
    requires |m| == |w| && forall k | k in m :: k in w && w[k] == m[k]
    ensures m == w
  {
    SubsetOfSameSize(m.Keys, w.Keys);
  }

  lemma SubsetOfSameSize<T>(x: set<T>, y: set<T>)
    requires x <= y && |x| == |y|
    ensures x == y
  {
    assert y == x + (y - x);
    assert |y| == |x| + |y - x|;
  }

  ghost predicate HasPair<K, V>(ks: seq<K>, vs: seq<V>, k: K, v: V) {
    exists i :: 0 <= i < |ks| && i < |vs| && ks[i] == k && vs[i] == v
  }

  lemma ZippedPairs<K, V>(ks: seq<K>, vs: seq<V>, k: K, v: V)
    requires |ks| == |vs| && Distinct(ks)
    ensures HasPair(ks, vs, k, v) <==> k in Zipped(ks, vs) && Zipped(ks, vs)[k] == v
    ensures |Zipped(ks, vs)| == |ks|
  {
    ZipOnly(ks, vs, |ks|);
    if i :| 0 <= i < |ks| && ks[i] == k {
      ZipHas(ks, vs, |ks|, i);
      assert forall j | 0 <= j < |ks| && ks[j] == k :: j == i;
    }
  }

  /** Two lists of entries give the same map exactly when they are equally long and each
      entry of one is an entry of the other. */
  lemma SameMaps<K, V>(ks: seq<K>, vs: seq<V>, ls: seq<K>, ws: seq<V>)
    requires |ks| == |vs| && |ls| == |ws| && Distinct(ks) && Distinct(ls)
    ensures Zipped(ks, vs) == Zipped(ls, ws) <==>
            |ks| == |ls| && forall i | 0 <= i < |ks| :: HasPair(ls, ws, ks[i], vs[i])
  {
    hide HasPair, Zipped;
    var m, w := Zipped(ks, vs), Zipped(ls, ws);
    forall i | 0 <= i < |ks| ensures ks[i] in m && m[ks[i]] == vs[i] {
      PairHere(ks, vs, i);
      ZippedPairs(ks, vs, ks[i], vs[i]);
    }
    forall k | k in m ensures exists i :: 0 <= i < |ks| && ks[i] == k {
      ZippedFrom(ks, vs, k);
    }
    if ks == [] {
      ZippedNone(ks, vs);
    } else {
      ZippedPairs(ks, vs, ks[0], vs[0]);
    }
    forall i | 0 <= i < |ks| ensures HasPair(ls, ws, ks[i], vs[i]) <==> ks[i] in w && w[ks[i]] == vs[i] {
      ZippedPairs(ls, ws, ks[i], vs[i]);
    }
    if ls == [] {
      ZippedNone(ls, ws);
    } else {
      ZippedPairs(ls, ws, ls[0], ws[0]);
    }
    if |ks| == |ls| && forall i | 0 <= i < |ks| :: HasPair(ls, ws, ks[i], vs[i]) {
      CoveredIsEqual(m, w);
    }
  }

  lemma PairHere<K, V>(ks: seq<K>, vs: seq<V>, i: nat)
    requires i < |ks| == |vs|
    ensures HasPair(ks, vs, ks[i], vs[i])
  {
  }

  lemma ZippedFrom<K, V>(ks: seq<K>, vs: seq<V>, k: K)
    requires |ks| == |vs| && Distinct(ks) && k in Zipped(ks, vs)
    ensures exists i :: 0 <= i < |ks| && ks[i] == k
  {
    ZipOnly(ks, vs, |ks|);
  }

  lemma ZippedNone<K, V>(ks: seq<K>, vs: seq<V>)
    requires ks == [] && |vs| == 0
    ensures |Zipped(ks, vs)| == 0
  {
  }

  lemma {:induction false} ToSetSize<T>(s: seq<T>)
    requires Distinct(s)
    ensures |ToSet(s)| == |s|
  {
    if s != [] {
      var n := |s| - 1;
      ToSetSize(s[..n]);
      assert ToSet(s) == ToSet(s[..n]) + {s[n]};
      assert s[n] !in ToSet(s[..n]);
    }
  }

  lemma SameSets<T>(s: seq<T>, t: seq<T>)
    requires Distinct(s) && Distinct(t)
    ensures ToSet(s) == ToSet(t) <==> |s| == |t| && forall i | 0 <= i < |s| :: s[i] in t
  {
    ToSetSize(s);
    ToSetSize(t);
    if ToSet(s) == ToSet(t) {
      forall i | 0 <= i < |s| ensures s[i] in t {
        assert s[i] in ToSet(t);
      }
    } else if |s| == |t| && forall i | 0 <= i < |s| :: s[i] in t {
      SubsetOfSameSize(ToSet(s), ToSet(t));
    }
  }

  // ---- Equality is equality of meaning ----

  lemma SemOfArray(j: Json)
    requires j.Arr?
    ensures Sem(j) == VArr(Sems(j.elems))
  {
    assert Sems(j.elems) == seq(|j.elems|, i requires 0 <= i < |j.elems| => Sem(j.elems[i]));
  }

  lemma SemOfSet(j: Json)
    requires j.Set?
    ensures Sem(j) == VSet(ToSet(Sems(j.members)))
  {
    assert Sems(j.members) == seq(|j.members|, i requires 0 <= i < |j.members| => Sem(j.members[i]));
  }

  /** Find finds the key with the same meaning. */
  lemma {:induction false} FindMeans(keys: seq<Json>, k: Json, n: nat)
    requires n <= |keys| && Proper(k) && forall i | 0 <= i < |keys| :: Proper(keys[i])
    ensures var r := Find(keys, k, n);
            if r >= 0 then Sem(keys[r]) == Sem(k) else forall i | |keys| - n <= i < |keys| :: Sem(keys[i]) != Sem(k)
    decreases Sizes(keys, |keys|) + Size(k) + 1, 0, n
  {
    hide Sem, Proper, EqualOp, Size, Sizes;
    if n > 0 {
      var i := |keys| - n;
      SizeOfElement(keys, |keys|, i);
      EqualMeans(keys[i], k);
      FindMeans(keys, k, n - 1);
    }
  }

  /** Two proper values are equal for equalOp exactly when they mean the same: the same
      scalar, array, map or set, whatever the representation and order of entries. */
  lemma {:induction false} EqualMeans(a: Json, b: Json)
    requires Proper(a) && Proper(b)
    ensures EqualOp(a, b) <==> Sem(a) == Sem(b)
    decreases Size(a) + Size(b), 1
  {
    SmallerElements(a);
    SmallerElements(b);
    if a.Arr? && b.Arr? {
      ArraysMean(a, b);
    } else if a.Obj? && b.Obj? {
      ObjectsMean(a, b);
    } else if a.Obj? && b.Table? {
      MixedMean(a, b);
    } else if a.Table? && b.Obj? {
      MixedMean(b, a);
    } else if a.Table? && b.Table? {
      TablesMean(a, b);
    } else if a.Set? && b.Set? {
      SetsMean(a, b);
    } else {
      ScalarsMean(a, b);
    }
  }

  lemma ScalarsMean(a: Json, b: Json)
    requires !(a.Arr? && b.Arr?) && !(a.Set? && b.Set?) && !((a.Obj? || a.Table?) && (b.Obj? || b.Table?))
    ensures EqualOp(a, b) <==> Sem(a) == Sem(b)
  {
  }

  lemma {:induction false} ArraysMean(a: Json, b: Json)
    requires a.Arr? && b.Arr? && Proper(a) && Proper(b)
    ensures EqualOp(a, b) <==> Sem(a) == Sem(b)
    decreases Size(a) + Size(b), 0
  {
    SmallerElements(a);
    SmallerElements(b);
    SemOfArray(a);
    SemOfArray(b);
    if |a.elems| == |b.elems| {
      forall i | 0 <= i < |a.elems| ensures EqualOp(a.elems[i], b.elems[i]) <==> Sems(a.elems)[i] == Sems(b.elems)[i] {
        EqualMeans(a.elems[i], b.elems[i]);
      }
      assert Sems(a.elems) == Sems(b.elems) <==> forall i | 0 <= i < |a.elems| :: Sems(a.elems)[i] == Sems(b.elems)[i];
    } else {
      assert |Sems(a.elems)| != |Sems(b.elems)|;
    }
  }

  /** An object has an entry that means `k` and `v`. */
  ghost predicate HasEntry(b: Json, k: Val, v: Val)
    requires b.Obj? || b.Table?
  {
    exists j :: 0 <= j < |Keys(b)| && j < |Items(b)| && Sem(Keys(b)[j]) == k && Sem(Items(b)[j]) == v
  }

  /** The entries of two objects give the same map. */
  ghost predicate SameEntries(a: Json, b: Json)
    requires (a.Obj? || a.Table?) && (b.Obj? || b.Table?)
  {
    && |Keys(a)| == |Items(a)| == |Keys(b)| == |Items(b)|
    && forall i | 0 <= i < |Keys(a)| :: HasEntry(b, Sem(Keys(a)[i]), Sem(Items(a)[i]))
  }

  lemma SameEntriesMean(a: Json, b: Json)
    requires (a.Obj? || a.Table?) && (b.Obj? || b.Table?) && Proper(a) && Proper(b)
    ensures SameEntries(a, b) <==> Sem(a) == Sem(b)
  {
    hide Sem, Proper, Keys, Items;
    ProperObject(a);
    ProperObject(b);
    SemOfObject(a);
    SemOfObject(b);
    var ks, vs, ls, ws := Sems(Keys(a)), Sems(Items(a)), Sems(Keys(b)), Sems(Items(b));
    SameMaps(ks, vs, ls, ws);
    forall i | 0 <= i < |ks| && |ks| == |ls|
      ensures HasEntry(b, Sem(Keys(a)[i]), Sem(Items(a)[i])) <==> HasPair(ls, ws, ks[i], vs[i])
    {
      EntryHere(b, Sem(Keys(a)[i]), Sem(Items(a)[i]), ls, ws);
    }
  }

  lemma EntryHere(b: Json, k: Val, v: Val, ls: seq<Val>, ws: seq<Val>)
    requires (b.Obj? || b.Table?) && |ls| == |Keys(b)| == |Items(b)| == |ws|
    requires forall j | 0 <= j < |ls| :: ls[j] == Sem(Keys(b)[j]) && ws[j] == Sem(Items(b)[j])
    ensures HasEntry(b, k, v) <==> HasPair(ls, ws, k, v)
  {
    hide Sem, Keys, Items;
    if HasEntry(b, k, v) {
      var j :| 0 <= j < |Keys(b)| && j < |Items(b)| && Sem(Keys(b)[j]) == k && Sem(Items(b)[j]) == v;
      assert ls[j] == k && ws[j] == v;
    }
  }

  lemma {:induction false} TablesMean(a: Json, b: Json)
    requires a.Table? && b.Table? && Proper(a) && Proper(b)
    ensures EqualOp(a, b) <==> Sem(a) == Sem(b)
    decreases Size(a) + Size(b), 0, 1
  {
    hide Sem, Sems, Size, Sizes, KeyFound, HasEntry;
    SameEntriesMean(a, b);
    assert Keys(a) == a.keys && Items(a) == a.items && Keys(b) == b.keys && Items(b) == b.items;
    if |a.keys| == |b.keys| {
      forall i | 0 <= i < |a.keys| ensures KeyFound(a, b, i) <==> HasEntry(b, Sem(a.keys[i]), Sem(a.items[i])) {
        KeyFoundMeans(a, b, i);
      }
      assert EqualTables(a, b) <==> SameEntries(a, b);
    }
  }

  lemma {:induction false} KeyFoundMeans(a: Json, b: Json, i: nat)
    requires a.Table? && b.Table? && Proper(a) && Proper(b) && |a.keys| == |b.keys| && i < |a.keys|
    ensures KeyFound(a, b, i) <==> HasEntry(b, Sem(a.keys[i]), Sem(a.items[i]))
    decreases Size(a) + Size(b), 0, 0
  {
    hide Sem, Sems, Size, Sizes;
    SmallerElements(a);
    SmallerElements(b);
    FindMeans(b.keys, a.keys[i], |b.keys|);
    var j := Find(b.keys, a.keys[i], |b.keys|);
    assert Keys(b) == b.keys && Items(b) == b.items;
    if j >= 0 {
      EqualMeans(a.items[i], b.items[j]);
      OnlyKey(b, j, a.keys[i]);
      if Sem(b.items[j]) == Sem(a.items[i]) {
        assert Sem(Keys(b)[j]) == Sem(a.keys[i]) && Sem(Items(b)[j]) == Sem(a.items[i]);
      }
    }
  }

  lemma OnlyKey(b: Json, j: nat, k: Json)
    requires b.Table? && Proper(b) && j < |b.keys| && Sem(b.keys[j]) == Sem(k)
    ensures forall i | 0 <= i < |b.keys| && Sem(b.keys[i]) == Sem(k) :: i == j
  {
    forall i | 0 <= i < |b.keys| && i != j ensures Sem(b.keys[i]) != Sem(b.keys[j]) {
      assert Sems(b.keys)[i] != Sems(b.keys)[j];
    }
  }

  /** A name of a sorted list stands where it is found. */
  lemma {:induction false} NameAtIs(names: seq<Bytes>, i: nat)
    requires i < |names| && Ascending(names)
    ensures NameAt(names, names[i]) == i
  {
    AscendingIsInjective(names, i, NameAt(names, names[i]));
  }

  lemma {:induction false} ObjectsMean(a: Json, b: Json)
    requires a.Obj? && b.Obj? && Proper(a) && Proper(b)
    ensures EqualOp(a, b) <==> Sem(a) == Sem(b)
    decreases Size(a) + Size(b), 0
  {
    hide Sem, Sems, Size, Sizes;
    SmallerElements(a);
    SmallerElements(b);
    SameEntriesMean(a, b);
    NamedEntries(a, b);
    if a.names == b.names {
      forall i | 0 <= i < |a.vals| ensures EqualOp(a.vals[i], b.vals[i]) <==> Sem(a.vals[i]) == Sem(b.vals[i]) {
        EqualMeans(a.vals[i], b.vals[i]);
      }
    }
  }

  /** Sorted objects with the same entries have them at the same places. */
  lemma NamedEntries(a: Json, b: Json)
    requires a.Obj? && b.Obj? && Proper(a) && Proper(b)
    ensures SameEntries(a, b) <==> a.names == b.names && forall i | 0 <= i < |a.vals| :: Sem(a.vals[i]) == Sem(b.vals[i])
  {
    hide Sem, Sems, HasEntry, Keys, Items;
    ObjectEntries(a);
    ObjectEntries(b);
    if SameEntries(a, b) {
      forall i | 0 <= i < |a.names| ensures exists j :: 0 <= j < |b.names| && b.names[j] == a.names[i] && Sem(b.vals[j]) == Sem(a.vals[i]) {
        NamedEntry(b, a.names[i], Sem(a.vals[i]));
      }
      forall i | 0 <= i < |a.names| ensures a.names[i] in b.names {
        var j :| 0 <= j < |b.names| && b.names[j] == a.names[i] && Sem(b.vals[j]) == Sem(a.vals[i]);
      }
      SameNames(a.names, b.names);
      forall i | 0 <= i < |a.vals| ensures Sem(a.vals[i]) == Sem(b.vals[i]) {
        var j :| 0 <= j < |b.names| && b.names[j] == a.names[i] && Sem(b.vals[j]) == Sem(a.vals[i]);
        AscendingIsInjective(b.names, i, j);
      }
    } else if a.names == b.names {
      forall i | 0 <= i < |a.vals| && Sem(a.vals[i]) == Sem(b.vals[i]) ensures HasEntry(b, Sem(Keys(a)[i]), Sem(Items(a)[i])) {
        NamedEntry(b, a.names[i], Sem(a.vals[i]));
      }
    }
  }

  lemma ObjectEntries(a: Json)
    requires a.Obj? && Proper(a)
    ensures |a.names| == |a.vals| == |Keys(a)| == |Items(a)| && Ascending(a.names) && Items(a) == a.vals
    ensures forall i | 0 <= i < |a.names| :: Sem(Keys(a)[i]) == VStr(a.names[i])
  {
  }

  lemma NamedEntry(b: Json, name: Bytes, v: Val)
    requires b.Obj? && Proper(b)
    ensures HasEntry(b, VStr(name), v) <==> exists j :: 0 <= j < |b.names| && b.names[j] == name && Sem(b.vals[j]) == v
  {
    hide Sem;
    ObjectEntries(b);
    if j :| 0 <= j < |b.names| && b.names[j] == name && Sem(b.vals[j]) == v {
      assert Sem(Keys(b)[j]) == VStr(name) && Sem(Items(b)[j]) == v;
    }
    if HasEntry(b, VStr(name), v) {
      var j :| 0 <= j < |Keys(b)| && j < |Items(b)| && Sem(Keys(b)[j]) == VStr(name) && Sem(Items(b)[j]) == v;
      assert b.names[j] == name;
    }
  }

  lemma SameNames(x: seq<Bytes>, y: seq<Bytes>)
    requires Ascending(x) && Ascending(y) && |x| == |y|
    requires forall i | 0 <= i < |x| :: x[i] in y
    ensures x == y
  {
    forall i, j | 0 <= i < j < |x| ensures x[i] != x[j] { LessIsStrict(x[i], x[j]); }
    forall i, j | 0 <= i < j < |y| ensures y[i] != y[j] { LessIsStrict(y[i], y[j]); }
    SameSets(x, y);
    forall n ensures n in x <==> n in y {
      assert n in ToSet(x) <==> n in ToSet(y);
    }
    AscendingIsUnique(x, y);
  }

  lemma {:induction false} NameFoundMeans(a: Json, b: Json, i: nat)
    requires a.Obj? && b.Table? && Proper(a) && Proper(b) && |a.names| == |b.keys| && i < |b.keys|
    ensures NameFound(a, b, i) <==> HasEntry(a, Sem(b.keys[i]), Sem(b.items[i]))
    decreases Size(a) + Size(b), 0, 0
  {
    hide Sems, Size, Sizes, HasEntry;
    SmallerElements(a);
    SmallerElements(b);
    if b.keys[i].Str? {
      var name := b.keys[i].text;
      NamedEntry(a, name, Sem(b.items[i]));
      if name in a.names {
        var j := NameAt(a.names, name);
        EqualMeans(a.vals[j], b.items[i]);
        forall k | 0 <= k < |a.names| && a.names[k] == name ensures k == j { NameAtIs(a.names, k); }
      }
    } else {
      NoSuchKey(a, Sem(b.keys[i]), Sem(b.items[i]));
    }
  }

  lemma NoSuchKey(a: Json, k: Val, v: Val)
    requires a.Obj? && Proper(a) && !k.VStr?
    ensures !HasEntry(a, k, v)
  {
    ObjectEntries(a);
  }

  lemma {:induction false} MixedMean(a: Json, b: Json)
    requires a.Obj? && b.Table? && Proper(a) && Proper(b)
    ensures EqualMixed(a, b) <==> Sem(a) == Sem(b)
    ensures EqualOp(a, b) == EqualOp(b, a) == EqualMixed(a, b)
    decreases Size(a) + Size(b), 0, 1
  {
    hide Sem, Sems, Size, Sizes, NameFound, HasEntry;
    SameEntriesMean(b, a);
    ObjectEntries(a);
    if |a.names| == |b.keys| {
      forall i | 0 <= i < |b.keys| ensures NameFound(a, b, i) <==> HasEntry(a, Sem(Keys(b)[i]), Sem(Items(b)[i])) {
        NameFoundMeans(a, b, i);
      }
    }
  }

  lemma {:induction false} SetsMean(a: Json, b: Json)
    requires a.Set? && b.Set? && Proper(a) && Proper(b)
    ensures EqualOp(a, b) <==> Sem(a) == Sem(b)
    decreases Size(a) + Size(b), 0
  {
    hide Sem, Size, Sizes;
    SmallerElements(a);
    SmallerElements(b);
    SemOfSet(a);
    SemOfSet(b);
    var s, t := Sems(a.members), Sems(b.members);
    SameSets(s, t);
    forall i | 0 <= i < |a.members| ensures Find(b.members, a.members[i], |b.members|) >= 0 <==> s[i] in t {
      FindMeans(b.members, a.members[i], |b.members|);
      var r := Find(b.members, a.members[i], |b.members|);
      assert s[i] == Sem(a.members[i]);
      if r >= 0 {
        assert t[r] == s[i];
      } else {
        forall j | 0 <= j < |t| ensures t[j] != s[i] {
          assert t[j] == Sem(b.members[j]);
        }
      }
    }
    var found := forall i | 0 <= i < |a.members| :: Find(b.members, a.members[i], |b.members|) >= 0;
    assert EqualOp(a, b) <==> |a.members| == |b.members| && found;
  }
}
