/** The recursive union of objects: the right side wins, except where both sides are
    objects. Each result is built by adding entries whose keys cannot be there yet. */
module JsonUnions {
  import opened ByteCodec
  import opened JsonValues

  datatype Entries = Entries(keys: seq<Json>, items: seq<Json>)

  function Added(e: Entries, k: Json, v: Json): Entries { Entries(e.keys + [k], e.items + [v]) }

  /** Diff: the first `n` entries of `b` whose keys are not in `a`. */
  function Rest(b: Json, a: Json, n: nat): Entries
    requires a.Table? && b.Table? && n <= |b.keys| == |b.items|
  {
    if n == 0 then Entries([], [])
    else if Find(a.keys, b.keys[n - 1], |a.keys|) >= 0 then Rest(b, a, n - 1)
    else Added(Rest(b, a, n - 1), b.keys[n - 1], b.items[n - 1])
  }

  /** Then the first `n` entries of `a`, merged with `b` where it has the key. */
  function Merged(a: Json, b: Json, n: nat): Entries
    requires a.Table? && b.Table? && n <= |a.keys| == |a.items| && |b.keys| == |b.items|
    decreases a, 0, n
  {
    if n == 0 then Rest(b, a, |b.keys|)
    else
      var j := Find(b.keys, a.keys[n - 1], |b.keys|);
      Added(Merged(a, b, n - 1), a.keys[n - 1],
            if j < 0 then a.items[n - 1] else UnionObjects(a.items[n - 1], b.items[j]))
  }

  /** UnionObjects, for values whose objects are tables. */
  function UnionObjects(a: Json, b: Json): Json
    decreases a, 1, 0
  {
    if a.Table? && b.Table? && |a.keys| == |a.items| && |b.keys| == |b.items| then
      var e := Merged(a, b, |a.keys|);
      Table(e.keys, e.items)
    else b
  }

  /** Objects, at every level that a union descends to, are tables. */
  predicate Tables(j: Json)
    decreases j
  {
    !j.Obj? && (j.Table? ==> forall i | 0 <= i < |j.items| :: Tables(j.items[i]))
  }

  /** The merge on the meaning of values. */
  ghost function Union(x: Val, y: Val): Val
    decreases x
  {
    if x.VObj? && y.VObj? then
      VObj(map k | k in x.fields.Keys + y.fields.Keys ::
             if k in x.fields && k in y.fields then Union(x.fields[k], y.fields[k])
             else if k in y.fields then y.fields[k] else x.fields[k])
    else y
  }

  ghost function Fields(e: Entries): map<Val, Val> { Zipped(Sems(e.keys), Sems(e.items)) }

  ghost predicate Good(e: Entries) {
    && |e.keys| == |e.items| && Distinct(Sems(e.keys))
    && (forall i | 0 <= i < |e.keys| :: Proper(e.keys[i])) && (forall i | 0 <= i < |e.items| :: Proper(e.items[i]))
  }

  lemma {:induction false} ZipPrefix<K, V>(ks: seq<K>, vs: seq<V>, k: K, v: V, n: nat)
    requires n <= |ks| && n <= |vs|
    ensures Zip(ks + [k], vs + [v], n) == Zip(ks, vs, n)
  {
    if n > 0 {
      ZipPrefix(ks, vs, k, v, n - 1);
    }
  }

  lemma ZippedAppend<K, V>(ks: seq<K>, vs: seq<V>, k: K, v: V)
    requires |ks| == |vs| && Distinct(ks) && k !in Zipped(ks, vs)
    ensures Distinct(ks + [k]) && Zipped(ks + [k], vs + [v]) == Zipped(ks, vs)[k := v]
  {
    ZipPrefix(ks, vs, k, v, |ks|);
    forall i | 0 <= i < |ks| ensures ks[i] != k {
      ZipHas(ks, vs, |ks|, i);
    }
  }

  /** Adding an entry whose key is new. */
  lemma AddedFields(e: Entries, k: Json, v: Json)
    requires Good(e) && Proper(k) && Proper(v) && Sem(k) !in Fields(e)
    ensures Good(Added(e, k, v)) && Fields(Added(e, k, v)) == Fields(e)[Sem(k) := Sem(v)]
  {
    hide Sem, Proper, Zipped;
    var ks, vs := Sems(e.keys), Sems(e.items);
    assert Sems(e.keys + [k]) == ks + [Sem(k)] && Sems(e.items + [v]) == vs + [Sem(v)];
    ZippedAppend(ks, vs, Sem(k), Sem(v));
  }

  lemma TableFields(j: Json)
    requires j.Table? && Proper(j)
    ensures Sem(j) == VObj(Zipped(Sems(j.keys), Sems(j.items))) && Good(Entries(j.keys, j.items))
  {
    SemOfObject(j);
  }

  lemma GoodIsProper(e: Entries)
    requires Good(e)
    ensures Proper(Table(e.keys, e.items)) && Sem(Table(e.keys, e.items)) == VObj(Fields(e))
  {
    SemOfObject(Table(e.keys, e.items));
  }

  /** An entry of a table, and where its key is found. */
  lemma FieldAt(j: Json, i: nat)
    requires j.Table? && Proper(j) && i < |j.keys|
    ensures |j.keys| == |j.items| && Proper(j.keys[i]) && Proper(j.items[i])
    ensures Sem(j).VObj? && Sem(j.keys[i]) in Sem(j).fields && Sem(j).fields[Sem(j.keys[i])] == Sem(j.items[i])
  {
    TableFields(j);
    ZipHas(Sems(j.keys), Sems(j.items), |j.keys|, i);
  }

  /** Looking up a key by equality is looking up its meaning. */
  lemma FoundField(j: Json, k: Json)
    requires j.Table? && Proper(j) && Proper(k)
    ensures var r := Find(j.keys, k, |j.keys|);
            && Sem(j).VObj? && |j.keys| == |j.items|
            && (r >= 0 <==> Sem(k) in Sem(j).fields)
            && (r >= 0 ==> Sem(j).fields[Sem(k)] == Sem(j.items[r]) && Proper(j.items[r]))
  {
    hide Sem, Proper, Zipped;
    ProperObject(j);
    FindMeans(j.keys, k, |j.keys|);
    TableFields(j);
    var r := Find(j.keys, k, |j.keys|);
    if r >= 0 {
      FieldAt(j, r);
    } else if Sem(k) in Sem(j).fields {
      ZippedFrom(Sems(j.keys), Sems(j.items), Sem(k));
    }
  }

  lemma EntriesUpto(j: Json, n: nat)
    requires j.Table? && Proper(j) && 0 < n <= |j.keys|
    ensures var m := Zip(Sems(j.keys), Sems(j.items), n - 1);
            && Zip(Sems(j.keys), Sems(j.items), n) == m[Sem(j.keys[n - 1]) := Sem(j.items[n - 1])]
            && Sem(j.keys[n - 1]) !in m
  {
    hide Sem, Proper, Zip;
    ProperObject(j);
    ZipStep(Sems(j.keys), Sems(j.items), n);
    assert Sems(j.keys)[n - 1] == Sem(j.keys[n - 1]) && Sems(j.items)[n - 1] == Sem(j.items[n - 1]);
  }

  lemma ZipStep<K, V>(ks: seq<K>, vs: seq<V>, n: nat)
    requires 0 < n <= |ks| == |vs| && Distinct(ks)
    ensures Zip(ks, vs, n) == Zip(ks, vs, n - 1)[ks[n - 1] := vs[n - 1]] && ks[n - 1] !in Zip(ks, vs, n - 1)
  {
    ZipOnly(ks, vs, n - 1);
  }

  lemma {:induction false} RestFields(b: Json, a: Json, n: nat)
    requires a.Table? && b.Table? && Proper(a) && Proper(b) && n <= |b.keys|
    ensures |b.keys| == |b.items| && Good(Rest(b, a, n))
    ensures var m := Zip(Sems(b.keys), Sems(b.items), n);
            Fields(Rest(b, a, n)) == map k | k in m && !(Sem(a).VObj? && k in Sem(a).fields) :: m[k]
  {
    hide Sem, Proper, Find, Fields, Good, Added;
    ProperObject(b);
    if n == 0 {
      NoFields();
    } else {
      RestFields(b, a, n - 1);
      EntriesUpto(b, n);
      FieldAt(b, n - 1);
      FoundField(a, b.keys[n - 1]);
      if Find(a.keys, b.keys[n - 1], |a.keys|) < 0 {
        AddedFields(Rest(b, a, n - 1), b.keys[n - 1], b.items[n - 1]);
      }
    }
  }

  lemma NoFields()
    ensures Good(Entries([], [])) && Fields(Entries([], [])) == map[]
  {
  }

  /** What the union holds after the first `n` entries of the left side. */
  ghost function UnionUpto(x: map<Val, Val>, m: map<Val, Val>, y: map<Val, Val>): map<Val, Val>
    requires m.Keys <= x.Keys
  {
    map k | k in m.Keys + (y.Keys - x.Keys) ::
      if k in m then (if k in y then Union(m[k], y[k]) else m[k]) else y[k]
  }

  lemma UptoGrows(x: map<Val, Val>, m: map<Val, Val>, y: map<Val, Val>, k: Val, v: Val)
    requires m.Keys <= x.Keys && k in x && k !in m
    ensures k !in UnionUpto(x, m, y)
    ensures UnionUpto(x, m[k := v], y) == UnionUpto(x, m, y)[k := if k in y then Union(v, y[k]) else v]
  {
    hide Union;
  }

  lemma UptoAll(x: map<Val, Val>, y: map<Val, Val>)
    ensures Union(VObj(x), VObj(y)) == VObj(UnionUpto(x, x, y))
    ensures UnionUpto(x, map[], y) == map k | k in y && k !in x :: y[k]
  {
  }

  lemma {:induction false} MergedFields(a: Json, b: Json, n: nat)
    requires a.Table? && b.Table? && Proper(a) && Proper(b) && Tables(a) && Tables(b) && n <= |a.keys|
    ensures |a.keys| == |a.items| && |b.keys| == |b.items| && Good(Merged(a, b, n)) && Sem(a).VObj? && Sem(b).VObj?
    ensures Zip(Sems(a.keys), Sems(a.items), n).Keys <= Sem(a).fields.Keys
    ensures Fields(Merged(a, b, n)) == UnionUpto(Sem(a).fields, Zip(Sems(a.keys), Sems(a.items), n), Sem(b).fields)
    decreases a, 0, n
  {
    hide Sem, Proper, Find, Fields, Good, Added, UnionUpto, Union, Rest, Sems;
    TableFields(a);
    TableFields(b);
    ProperObject(a);
    ProperObject(b);
    if n == 0 {
      RestFields(b, a, |b.keys|);
      UptoAll(Sem(a).fields, Sem(b).fields);
    } else {
      MergedFields(a, b, n - 1);
      EntriesUpto(a, n);
      FieldAt(a, n - 1);
      FoundField(b, a.keys[n - 1]);
      var j := Find(b.keys, a.keys[n - 1], |b.keys|);
      var m := Zip(Sems(a.keys), Sems(a.items), n - 1);
      UptoGrows(Sem(a).fields, m, Sem(b).fields, Sem(a.keys[n - 1]), Sem(a.items[n - 1]));
      if j >= 0 {
        UnionMeans(a.items[n - 1], b.items[j]);
      }
      AddedFields(Merged(a, b, n - 1), a.keys[n - 1], if j < 0 then a.items[n - 1] else UnionObjects(a.items[n - 1], b.items[j]));
    }
  }

  /** The union is the recursive right-biased merge: it has exactly the keys of both
      sides, each once, takes the right value on conflict, and merges objects. */
  lemma {:induction false} UnionMeans(a: Json, b: Json)
    requires Proper(a) && Proper(b) && Tables(a) && Tables(b)
    ensures Proper(UnionObjects(a, b)) && Sem(UnionObjects(a, b)) == Union(Sem(a), Sem(b))
    decreases a, 1, 0
  {
    hide Merged, Union, UnionUpto, Fields, Good, Proper, Sem;
    if a.Table? && b.Table? {
      ProperObject(a);
      ProperObject(b);
      MergedFields(a, b, |a.keys|);
      TableFields(a);
      UptoAll(Sem(a).fields, Sem(b).fields);
      GoodIsProper(Merged(a, b, |a.keys|));
    } else {
      NotBothObjects(a, b);
    }
  }

  lemma NotBothObjects(a: Json, b: Json)
    requires !a.Obj? && !b.Obj? && !(a.Table? && b.Table?)
    ensures Union(Sem(a), Sem(b)) == Sem(b)
  {
  }
}
