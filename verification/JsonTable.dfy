/** The object of evaluation: a small table searched from the front that moves into
    larger tables, and at last into chains by hash, as it grows. Any hash will do, even
    one that sends everything to the same chain. */
module JsonTables {
  import opened ByteCodec
  import opened JsonValues
  import opened JsonHashes
  import opened JsonUnions

  datatype Slot = Slot(hash: nat, k: Json, v: Json)

  /** The slots of a compact table in order, or those of a large one by hash. */
  datatype Slots = Compact(table: seq<Slot>) | Large(chains: map<nat, seq<Slot>>) {
    /** Where a key with this hash is looked for. */
    function Bucket(hash: nat): seq<Slot> {
      if Compact? then table else if hash in chains then chains[hash] else []
    }

    function With(hash: nat, b: seq<Slot>): Slots {
      if Compact? then Compact(b) else Large(chains[hash := b])
    }
  }

  /** NewObject2: the capacity of a table for `n` entries, or None for chains. */
  function CapacityFor(n: nat): Option<nat> {
    if n == 0 then Some(0)
    else if n <= 2 then Some(2)
    else if n <= 4 then Some(4)
    else if n <= 8 then Some(8)
    else if n <= 16 then Some(16)
    else None
  }

  /** Compact tables come in five sizes, and the smallest one that fits is taken. */
  lemma CapacityLaw(n: nat)
    ensures CapacityFor(n).None? <==> n > 16
    ensures CapacityFor(n).Some? ==> CapacityFor(n).value in [0, 2, 4, 8, 16] && n <= CapacityFor(n).value
    ensures forall c | c in [0, 2, 4, 8, 16] && n <= c :: CapacityFor(n).Some? && CapacityFor(n).value <= c
  {
  }

  // ---- Slots that hold a map ----

  ghost predicate Fits(h: Hasher, s: Slot, m: map<Val, Json>) {
    Proper(s.k) && Proper(s.v) && s.hash == Hash(h, s.k) && Sem(s.k) in m && m[Sem(s.k)] == s.v
  }

  ghost predicate BucketOK(h: Hasher, t: Slots, m: map<Val, Json>, hash: nat) {
    var b := t.Bucket(hash);
    && (forall i | 0 <= i < |b| :: Fits(h, b[i], m) && (t.Large? ==> b[i].hash == hash))
    && (forall i, j | 0 <= i < j < |b| :: Sem(b[i].k) != Sem(b[j].k))
  }

  ghost predicate Stored(t: Slots, k: Val) {
    exists s: Slot :: s in t.Bucket(s.hash) && Sem(s.k) == k
  }

  /** Each key of the map is stored exactly once, where its hash says. */
  ghost predicate Holds(h: Hasher, t: Slots, m: map<Val, Json>) {
    (forall hash: nat :: BucketOK(h, t, m, hash)) && forall k | k in m :: Stored(t, k)
  }

  /** A key's hash depends on its meaning only. */
  lemma SameHash(h: Hasher, k: Json, l: Json)
    requires Proper(k) && Proper(l) && Sem(k) == Sem(l)
    ensures Hash(h, k) == Hash(h, l)
  {
    hide Stream, Sem, Proper;
    SameStream(h, k, l);
  }

  lemma NotStored(h: Hasher, t: Slots, m: map<Val, Json>, hash: nat, k: Json)
    requires Holds(h, t, m) && Proper(k) && hash == Hash(h, k)
    requires forall l | 0 <= l < |t.Bucket(hash)| :: Sem(t.Bucket(hash)[l].k) != Sem(k)
    ensures Sem(k) !in m
  {
    hide Sem, Proper, Hash;
    if Sem(k) in m {
      assert Stored(t, Sem(k));
      var s: Slot :| s in t.Bucket(s.hash) && Sem(s.k) == Sem(k);
      assert BucketOK(h, t, m, s.hash);
      SameHash(h, s.k, k);
      assert false;
    }
  }

  lemma SlotFits(h: Hasher, t: Slots, m: map<Val, Json>, hash: nat, i: nat)
    requires Holds(h, t, m) && i < |t.Bucket(hash)|
    ensures Fits(h, t.Bucket(hash)[i], m) && (t.Large? ==> t.Bucket(hash)[i].hash == hash)
  {
    assert BucketOK(h, t, m, hash);
  }

  /** A slot that is not about key `k` fits whatever the map says of `k`. */
  lemma FitsElsewhere(h: Hasher, s: Slot, m: map<Val, Json>, k: Val, v: Json)
    requires Fits(h, s, m) && Sem(s.k) != k
    ensures Fits(h, s, m[k := v])
  {
    hide Sem, Proper, Hash;
  }

  /** A key that is there gets a new value. */
  lemma Replaced(h: Hasher, t: Slots, m: map<Val, Json>, hash: nat, i: nat, v: Json)
    requires Holds(h, t, m) && i < |t.Bucket(hash)| && t.Bucket(hash)[i].hash == hash && Proper(v)
    ensures var b := t.Bucket(hash);
            Holds(h, t.With(hash, b[i := Slot(hash, b[i].k, v)]), m[Sem(b[i].k) := v])
    ensures Sem(t.Bucket(hash)[i].k) in m
  {
    hide Sem, Proper, Hash, Fits;
    var b := t.Bucket(hash);
    var slot := Slot(hash, b[i].k, v);
    var t', k := t.With(hash, b[i := slot]), Sem(b[i].k);
    var m' := m[k := v];
    SlotFits(h, t, m, hash, i);
    ReplacedSlot(h, b[i], m, v);
    forall g: nat ensures BucketOK(h, t', m', g) {
      ReplacedBucket(h, t, m, hash, i, v, g);
    }
    forall l | l in m' ensures Stored(t', l) {
      assert Stored(t, l);
      var s: Slot :| s in t.Bucket(s.hash) && Sem(s.k) == l;
      var u := if s == b[i] then slot else s;
      if u.hash == hash || t.Compact? {
        var j :| 0 <= j < |t.Bucket(s.hash)| && t.Bucket(s.hash)[j] == s;
        assert t'.Bucket(u.hash)[if s == b[i] then i else j] == u;
      }
      assert u in t'.Bucket(u.hash);
    }
  }

  lemma ReplacedSlot(h: Hasher, s: Slot, m: map<Val, Json>, v: Json)
    requires Fits(h, s, m) && Proper(v)
    ensures Sem(s.k) in m && Fits(h, s.(v := v), m[Sem(s.k) := v])
  {
    hide Sem, Proper, Hash;
  }

  lemma ReplacedBucket(h: Hasher, t: Slots, m: map<Val, Json>, hash: nat, i: nat, v: Json, g: nat)
    requires Holds(h, t, m) && i < |t.Bucket(hash)| && t.Bucket(hash)[i].hash == hash && Proper(v)
    ensures var b := t.Bucket(hash);
            BucketOK(h, t.With(hash, b[i := Slot(hash, b[i].k, v)]), m[Sem(b[i].k) := v], g)
  {
    hide Sem, Proper, Hash, Fits;
    var b := t.Bucket(hash);
    var slot := Slot(hash, b[i].k, v);
    var t', k := t.With(hash, b[i := slot]), Sem(b[i].k);
    var c, d := t.Bucket(g), t'.Bucket(g);
    assert BucketOK(h, t, m, g) && BucketOK(h, t, m, hash);
    ReplacedSlot(h, b[i], m, v);
    assert b[i].(v := v) == slot;
    if t.Compact? || g == hash {
      assert c == b && d == b[i := slot];
      forall j | 0 <= j < |d| && j != i ensures Fits(h, d[j], m[k := v]) {
        assert Sem(c[j].k) != k;
        FitsElsewhere(h, c[j], m, k, v);
      }
    } else {
      forall j | 0 <= j < |d| ensures Fits(h, d[j], m[k := v]) {
        OtherHash(h, c[j], b[i], m);
        FitsElsewhere(h, c[j], m, k, v);
      }
    }
  }

  lemma OtherHash(h: Hasher, s: Slot, t: Slot, m: map<Val, Json>)
    requires Fits(h, s, m) && Fits(h, t, m) && s.hash != t.hash
    ensures Sem(s.k) != Sem(t.k)
  {
    hide Sem, Proper, Hash;
    if Sem(s.k) == Sem(t.k) {
      SameHash(h, s.k, t.k);
    }
  }

  /** A new key goes behind a compact table, or before its chain. */
  function Appended(t: Slots, s: Slot): Slots {
    t.With(s.hash, if t.Compact? then t.table + [s] else [s] + t.Bucket(s.hash))
  }

  lemma AppendHolds(h: Hasher, t: Slots, m: map<Val, Json>, s: Slot)
    requires Holds(h, t, m) && Proper(s.k) && Proper(s.v) && s.hash == Hash(h, s.k) && Sem(s.k) !in m
    ensures Holds(h, Appended(t, s), m[Sem(s.k) := s.v])
    ensures |m[Sem(s.k) := s.v]| == |m| + 1
  {
    hide Sem, Proper, Hash, Fits;
    var t', m' := Appended(t, s), m[Sem(s.k) := s.v];
    OneMoreKey(m, Sem(s.k), s.v);
    NewSlotFits(h, s, m);
    forall g: nat ensures BucketOK(h, t', m', g) {
      var c, d := t.Bucket(g), t'.Bucket(g);
      forall j | 0 <= j < |c| ensures Fits(h, c[j], m') && Sem(c[j].k) != Sem(s.k) && (t.Large? ==> c[j].hash == g) {
        SlotFits(h, t, m, g, j);
        SlotKey(h, c[j], m);
        FitsElsewhere(h, c[j], m, Sem(s.k), s.v);
      }
      assert BucketOK(h, t, m, g);
      assert d == if t.Compact? then c + [s] else if g == s.hash then [s] + c else c;
    }
    forall l | l in m' ensures Stored(t', l) {
      if l == Sem(s.k) {
        assert s in t'.Bucket(s.hash);
      } else {
        assert Stored(t, l);
        var u: Slot :| u in t.Bucket(u.hash) && Sem(u.k) == l;
        assert u in t'.Bucket(u.hash);
      }
    }
  }

  lemma NewSlotFits(h: Hasher, s: Slot, m: map<Val, Json>)
    requires Proper(s.k) && Proper(s.v) && s.hash == Hash(h, s.k)
    ensures Fits(h, s, m[Sem(s.k) := s.v])
  {
    hide Sem, Proper, Hash;
  }

  lemma SlotKey(h: Hasher, s: Slot, m: map<Val, Json>)
    requires Fits(h, s, m)
    ensures Sem(s.k) in m && m[Sem(s.k)] == s.v && Proper(s.k) && Proper(s.v) && s.hash == Hash(h, s.k)
  {
    hide Sem, Proper, Hash;
  }

  // ---- The object ----

  class Object2 {
    const h: Hasher
    const capacity: Option<nat>
    var slots: Slots
    var n: nat
    ghost var model: map<Val, Json>

    ghost predicate Valid()
      reads this
    {
      && Holds(h, slots, model) && n == |model|
      && (capacity.Some? <==> slots.Compact?)
      && (capacity.Some? ==> n == |slots.table| <= capacity.value)
    }

    predicate Full()
      reads this
    {
      capacity.Some? && n == capacity.value
    }

    /** The map that the object means. */
    ghost function Meaning(): map<Val, Val>
      reads this
    {
      Meanings(model)
    }

    constructor (h: Hasher, size: nat)
      ensures Valid() && model == map[] && this.h == h && capacity == CapacityFor(size)
    {
      this.h, this.capacity := h, CapacityFor(size);
      slots := if CapacityFor(size).Some? then Compact([]) else Large(map[]);
      n, model := 0, map[];
    }

    /** The position of a key in its bucket, or -1. */
    method FindSlot(hash: nat, k: Json) returns (i: int)
      requires Valid() && Proper(k) && hash == Hash(h, k)
      ensures -1 <= i < |slots.Bucket(hash)|
      ensures i >= 0 ==> Sem(slots.Bucket(hash)[i].k) == Sem(k) && slots.Bucket(hash)[i].hash == hash
      ensures i >= 0 <==> Sem(k) in model
    {
      hide Sem, Proper, EqualOp, Hash, Fits;
      var b := slots.Bucket(hash);
      for j := 0 to |b|
        invariant forall l | 0 <= l < j :: Sem(b[l].k) != Sem(k)
      {
        SlotFits(h, slots, model, hash, j);
        SlotKey(h, b[j], model);
        EqualMeans(b[j].k, k);
        if b[j].hash == hash && EqualOp(b[j].k, k) {
          return j;
        }
        if Sem(b[j].k) == Sem(k) {
          SameHash(h, b[j].k, k);
        }
      }
      NotStored(h, slots, model, hash, k);
      return -1;
    }

    /** Get and get. */
    method Get(hash: nat, k: Json) returns (r: Option<Json>)
      requires Valid() && Proper(k) && hash == Hash(h, k)
      ensures r == if Sem(k) in model then Some(model[Sem(k)]) else None
      ensures r.Some? ==> Proper(r.value)
    {
      hide Sem, Proper, Hash, Holds, Fits;
      var i := FindSlot(hash, k);
      if i < 0 {
        return None;
      }
      SlotFits(h, slots, model, hash, i);
      SlotKey(h, slots.Bucket(hash)[i], model);
      return Some(slots.Bucket(hash)[i].v);
    }

    /** Insertion into a table with room. */
    method Put(hash: nat, k: Json, v: Json)
      requires Valid() && !Full() && Proper(k) && Proper(v) && hash == Hash(h, k)
      modifies this
      ensures Valid() && model == old(model)[Sem(k) := v]
    {
      hide Sem, Proper, Hash, Holds;
      var i := FindSlot(hash, k);
      if i >= 0 {
        var b := slots.Bucket(hash);
        Replaced(h, slots, model, hash, i, v);
        assert model[Sem(k) := v].Keys == model.Keys;
        assert |model[Sem(k) := v].Keys| == |model[Sem(k) := v]| && |model.Keys| == |model|;
        slots := slots.With(hash, b[i := Slot(hash, b[i].k, v)]);
        model := model[Sem(k) := v];
      } else {
        PutNew(hash, k, v);
      }
    }

    /** The unchecked insertion of a key that is known not to be there. */
    method PutNew(hash: nat, k: Json, v: Json)
      requires Valid() && !Full() && Proper(k) && Proper(v) && hash == Hash(h, k) && Sem(k) !in model
      modifies this
      ensures Valid() && model == old(model)[Sem(k) := v]
    {
      hide Sem, Proper, Hash, Holds;
      AppendHolds(h, slots, model, Slot(hash, k, v));
      slots := Appended(slots, Slot(hash, k, v));
      n := n + 1;
      model := model[Sem(k) := v];
    }

    /** A full table moves into the next larger one. */
    method Grown() returns (o: Object2)
      requires Valid() && Full()
      ensures fresh(o) && o.Valid() && !o.Full() && o.model == model && o.h == h
    {
      hide Sem, Proper, Hash, Fits, Holds, Upto;
      o := new Object2(h, n + 1);
      NothingYet(slots.table);
      for i := 0 to n
        invariant fresh(o) && o.Valid() && o.h == h && o.n == i && o.capacity == CapacityFor(n + 1)
        invariant o.model == Upto(slots.table, i)
      {
        var s := slots.table[i];
        SlotFits(h, slots, model, s.hash, i);
        SlotKey(h, s, model);
        NewSlot(h, slots, model, i);
        NextSlot(slots.table, i);
        o.PutNew(s.hash, s.k, s.v);
      }
      SlotsAreModel(h, slots, model);
    }

    /** Insert and insert: the object itself, or a larger one in its place. */
    method Insert(hash: nat, k: Json, v: Json) returns (o: Object2)
      requires Valid() && Proper(k) && Proper(v) && hash == Hash(h, k)
      modifies this
      ensures o == this || (fresh(o) && model == old(model) && slots == old(slots) && Valid())
      ensures o.Valid() && o.h == h && o.model == old(model)[Sem(k) := v]
    {
      hide Sem, Proper, Hash, Holds;
      if Full() {
        o := Grown();
        o.Put(hash, k, v);
      } else {
        Put(hash, k, v);
        o := this;
      }
    }

    /** add: the key must not be there, and is not looked for. */
    method Add(hash: nat, k: Json, v: Json) returns (o: Object2)
      requires Valid() && Proper(k) && Proper(v) && hash == Hash(h, k) && Sem(k) !in model
      modifies this
      ensures o == this || (fresh(o) && model == old(model) && slots == old(slots) && Valid())
      ensures o.Valid() && o.h == h && o.model == old(model)[Sem(k) := v]
    {
      hide Sem, Proper, Hash, Holds;
      if Full() {
        o := Grown();
        o.PutNew(hash, k, v);
      } else {
        PutNew(hash, k, v);
        o := this;
      }
    }

    /** All slots, chain by chain. */
    method Listed() returns (ss: seq<Slot>)
      requires Valid()
      ensures Lists(h, ss, model) && |ss| == n
    {
      hide Sem, Proper, Hash, Fits, Holds, Lists;
      if slots.Compact? {
        CompactLists(h, slots, model);
        SlotsAreModel(h, slots, model);
        return slots.table;
      }
      ss := [];
      var hs := slots.chains.Keys;
      NothingListed(h, slots, model);
      while hs != {}
        invariant hs <= slots.chains.Keys && Listing(h, slots, model, ss, hs)
        decreases hs
      {
        var x: nat :| x in hs;
        ChainListed(h, slots, model, ss, hs, x);
        ss := ss + slots.chains[x];
        hs := hs - {x};
      }
      AllListed(h, slots, model, ss);
    }

    /** Diff: the entries whose keys the other object lacks. */
    method Diff(other: Object2) returns (result: Object2)
      requires Valid() && other.Valid() && other.h == h
      ensures fresh(result) && result.Valid() && result.h == h
      ensures result.model == Without(model, other.model)
    {
      hide Sem, Proper, Hash, Fits, Holds, Lists, Without, Upto;
      result := new Object2(h, if other.n > n then other.n else n);
      var ss := Listed();
      NothingYet(ss);
      WithoutNothing(other.model);
      for i := 0 to |ss|
        invariant fresh(result) && result.Valid() && result.h == h
        invariant result.model == Without(Upto(ss, i), other.model)
      {
        var s := ss[i];
        NextListed(h, ss, model, i);
        WithoutStep(Upto(ss, i), other.model, Sem(s.k), s.v);
        var v := other.Get(s.hash, s.k);
        if v.None? {
          result := result.Add(s.hash, s.k, s.v);
        }
      }
      ListedAll(h, ss, model);
    }

    /** Equal: equally long, and each entry found in the other with an equal value. */
    method Equal(other: Object2) returns (eq: bool)
      requires Valid() && other.Valid() && other.h == h
      ensures eq <==> Meaning() == other.Meaning()
    {
      hide Sem, Proper, Hash, Fits, Holds, Lists, EqualOp;
      MeaningSize(model);
      MeaningSize(other.model);
      if n != other.n {
        return false;
      }
      var ss := Listed();
      NothingYet(ss);
      for i := 0 to |ss|
        invariant forall k | k in Upto(ss, i) :: k in other.model && Sem(other.model[k]) == Sem(Upto(ss, i)[k])
      {
        var s := ss[i];
        NextListed(h, ss, model, i);
        var v := other.Get(s.hash, s.k);
        if v.None? {
          assert Sem(s.k) in Meaning() && Sem(s.k) !in other.Meaning();
          return false;
        }
        EqualMeans(s.v, v.value);
        if !EqualOp(s.v, v.value) {
          assert Meaning()[Sem(s.k)] != other.Meaning()[Sem(s.k)];
          return false;
        }
      }
      ListedAll(h, ss, model);
      CoveredIsEqual(Meaning(), other.Meaning());
      return true;
    }

    /** Union: the other's own entries, then this object's, merged where both have one. */
    method Union(other: Object2) returns (result: Object2)
      requires Valid() && other.Valid() && other.h == h && AllTables(model) && AllTables(other.model)
      ensures fresh(result) && result.Valid() && result.h == h
      ensures result.model == UnionModel(model, model, other.model)
    {
      hide Sem, Proper, Hash, Fits, Holds, Lists, UnionObjects, Tables, UnionModel, Without, Upto, AllTables;
      result := other.Diff(this);
      var ss := Listed();
      NothingYet(ss);
      UnionBegins(model, other.model);
      for i := 0 to |ss|
        invariant fresh(result) && result.Valid() && result.h == h
        invariant Upto(ss, i).Keys <= model.Keys && result.model == UnionModel(model, Upto(ss, i), other.model)
      {
        var s := ss[i];
        NextListed(h, ss, model, i);
        UnionStep(model, Upto(ss, i), other.model, Sem(s.k), s.v);
        var v := other.Get(s.hash, s.k);
        if v.None? {
          result := result.Add(s.hash, s.k, s.v);
        } else {
          ValuesAreTables(model, Sem(s.k));
          ValuesAreTables(other.model, Sem(s.k));
          UnionMeans(s.v, v.value);
          result := result.Insert(s.hash, s.k, UnionObjects(s.v, v.value));
        }
      }
      ListedAll(h, ss, model);
    }
  }

  lemma NothingYet(ss: seq<Slot>)
    ensures Upto(ss, 0) == map[]
  {
  }

  lemma NextSlot(ss: seq<Slot>, i: nat)
    requires i < |ss|
    ensures Upto(ss, i + 1) == Upto(ss, i)[Sem(ss[i].k) := ss[i].v]
  {
  }

  /** The map of the first `n` slots. */
  ghost function Upto(ss: seq<Slot>, n: nat): map<Val, Json>
    requires n <= |ss|
  {
    if n == 0 then map[] else Upto(ss, n - 1)[Sem(ss[n - 1].k) := ss[n - 1].v]
  }

  lemma {:induction false} UptoOnly(ss: seq<Slot>, n: nat, k: Val)
    requires n <= |ss|
    ensures k in Upto(ss, n) <==> exists i :: 0 <= i < n && Sem(ss[i].k) == k
  {
    hide Sem;
    if n > 0 {
      UptoOnly(ss, n - 1, k);
      if k == Sem(ss[n - 1].k) {
        assert Sem(ss[n - 1].k) == k;
      }
    }
  }

  lemma NewSlot(h: Hasher, t: Slots, m: map<Val, Json>, i: nat)
    requires Holds(h, t, m) && t.Compact? && i < |t.table|
    ensures Sem(t.table[i].k) !in Upto(t.table, i)
    ensures |Upto(t.table, i)| == i
  {
    hide Sem, Fits;
    assert BucketOK(h, t, m, 0);
    UptoOnly(t.table, i, Sem(t.table[i].k));
    UptoSize(h, t, m, i);
  }

  lemma {:induction false} UptoSize(h: Hasher, t: Slots, m: map<Val, Json>, i: nat)
    requires Holds(h, t, m) && t.Compact? && i <= |t.table|
    ensures |Upto(t.table, i)| == i
  {
    hide Sem, Fits;
    if i > 0 {
      UptoSize(h, t, m, i - 1);
      assert BucketOK(h, t, m, 0);
      UptoOnly(t.table, i - 1, Sem(t.table[i - 1].k));
      OneMoreKey(Upto(t.table, i - 1), Sem(t.table[i - 1].k), t.table[i - 1].v);
    }
  }

  lemma SlotsAreModel(h: Hasher, t: Slots, m: map<Val, Json>)
    requires Holds(h, t, m) && t.Compact?
    ensures Upto(t.table, |t.table|) == m
  {
    hide Sem, Fits;
    var w := Upto(t.table, |t.table|);
    forall k | k in m ensures k in w {
      assert Stored(t, k);
      var s: Slot :| s in t.table && Sem(s.k) == k;
      UptoOnly(t.table, |t.table|, k);
    }
    UptoFits(h, t, m, |t.table|);
  }

  lemma {:induction false} UptoFits(h: Hasher, t: Slots, m: map<Val, Json>, n: nat)
    requires Holds(h, t, m) && t.Compact? && n <= |t.table|
    ensures forall k | k in Upto(t.table, n) :: k in m && m[k] == Upto(t.table, n)[k]
  {
    hide Sem, Fits;
    if n > 0 {
      UptoFits(h, t, m, n - 1);
      SlotFits(h, t, m, 0, n - 1);
      SlotKey(h, t.table[n - 1], m);
    }
  }

  /** The entries of a map whose keys another map lacks. */
  ghost function Without(m: map<Val, Json>, o: map<Val, Json>): map<Val, Json> { map k | k in m && k !in o :: m[k] }

  lemma WithoutNothing(o: map<Val, Json>)
    ensures Without(map[], o) == map[]
  {
  }

  lemma WithoutStep(m: map<Val, Json>, o: map<Val, Json>, k: Val, v: Json)
    requires k !in m
    ensures Without(m[k := v], o) == if k in o then Without(m, o) else Without(m, o)[k := v]
    ensures k !in Without(m, o)
  {
  }

  /** The union, of which only the part `m` of the left side `x` has been merged. */
  ghost function UnionModel(x: map<Val, Json>, m: map<Val, Json>, y: map<Val, Json>): map<Val, Json>
    requires m.Keys <= x.Keys
  {
    map k | k in m.Keys + (y.Keys - x.Keys) ::
      if k !in m then y[k] else if k !in y then m[k] else UnionObjects(m[k], y[k])
  }

  lemma UnionBegins(x: map<Val, Json>, y: map<Val, Json>)
    ensures UnionModel(x, map[], y) == Without(y, x)
  {
    hide UnionObjects;
  }

  lemma UnionStep(x: map<Val, Json>, m: map<Val, Json>, y: map<Val, Json>, k: Val, v: Json)
    requires m.Keys <= x.Keys && k in x && k !in m
    ensures UnionModel(x, m[k := v], y) == UnionModel(x, m, y)[k := if k in y then UnionObjects(v, y[k]) else v]
    ensures k !in UnionModel(x, m, y) && m[k := v].Keys <= x.Keys
  {
    hide UnionObjects;
  }

  /** The finished union: exactly the keys of both sides, the right value where only it
      has the key or both do and are no objects, and the meaning of the recursive merge. */
  lemma UnionModelMeans(x: map<Val, Json>, y: map<Val, Json>)
    requires AllTables(x) && AllTables(y) && (forall k | k in x :: Proper(x[k])) && forall k | k in y :: Proper(y[k])
    ensures UnionModel(x, x, y).Keys == x.Keys + y.Keys
    ensures VObj(Meanings(UnionModel(x, x, y))) == Union(VObj(Meanings(x)), VObj(Meanings(y)))
  {
    hide Sem, Proper, Tables, UnionObjects;
    forall k | k in x && k in y ensures Sem(UnionObjects(x[k], y[k])) == Union(Sem(x[k]), Sem(y[k])) {
      UnionMeans(x[k], y[k]);
    }
  }

  ghost function Meanings(m: map<Val, Json>): map<Val, Val> { map k | k in m :: Sem(m[k]) }

  lemma ValuesAreTables(m: map<Val, Json>, k: Val)
    requires AllTables(m) && k in m
    ensures Tables(m[k])
  {
  }

  /** Objects among the values are tables. */
  ghost predicate AllTables(m: map<Val, Json>) { forall k | k in m :: Tables(m[k]) }

  /** A list of the slots of a map, each key once. */
  ghost predicate Lists(h: Hasher, ss: seq<Slot>, m: map<Val, Json>) {
    && (forall i | 0 <= i < |ss| :: Fits(h, ss[i], m))
    && (forall i, j | 0 <= i < j < |ss| :: Sem(ss[i].k) != Sem(ss[j].k))
    && Upto(ss, |ss|) == m
  }

  lemma CompactLists(h: Hasher, t: Slots, m: map<Val, Json>)
    requires Holds(h, t, m) && t.Compact?
    ensures Lists(h, t.table, m)
  {
    hide Sem, Fits;
    assert BucketOK(h, t, m, 0);
    SlotsAreModel(h, t, m);
  }

  /** The chains outside of `hs` have been listed. */
  ghost predicate Listing(h: Hasher, t: Slots, m: map<Val, Json>, ss: seq<Slot>, hs: set<nat>)
    requires t.Large?
  {
    && (forall i | 0 <= i < |ss| :: Fits(h, ss[i], m) && ss[i].hash !in hs)
    && (forall i, j | 0 <= i < j < |ss| :: Sem(ss[i].k) != Sem(ss[j].k))
    && (forall x, s | x in t.chains && x !in hs && s in t.chains[x] :: s in ss)
  }

  lemma NothingListed(h: Hasher, t: Slots, m: map<Val, Json>)
    requires t.Large?
    ensures Listing(h, t, m, [], t.chains.Keys)
  {
  }

  lemma ChainListed(h: Hasher, t: Slots, m: map<Val, Json>, ss: seq<Slot>, hs: set<nat>, x: nat)
    requires Holds(h, t, m) && t.Large? && Listing(h, t, m, ss, hs) && x in hs && x in t.chains
    ensures Listing(h, t, m, ss + t.chains[x], hs - {x})
  {
    hide Sem, Fits;
    var c := t.chains[x];
    assert BucketOK(h, t, m, x) && t.Bucket(x) == c;
    var r := ss + c;
    forall i, j | 0 <= i < j < |r| ensures Sem(r[i].k) != Sem(r[j].k) {
      if i < |ss| && |ss| <= j {
        assert r[j] == c[j - |ss|];
        OtherHash(h, ss[i], c[j - |ss|], m);
      } else if i >= |ss| {
        assert r[i] == c[i - |ss|] && r[j] == c[j - |ss|];
      }
    }
  }

  lemma AllListed(h: Hasher, t: Slots, m: map<Val, Json>, ss: seq<Slot>)
    requires Holds(h, t, m) && t.Large? && Listing(h, t, m, ss, {})
    ensures Lists(h, ss, m) && |ss| == |m|
  {
    hide Sem, Fits;
    forall k | k in m ensures exists i :: 0 <= i < |ss| && Sem(ss[i].k) == k {
      assert Stored(t, k);
      var s: Slot :| s in t.Bucket(s.hash) && Sem(s.k) == k;
      assert s in ss;
    }
    ListedIsMap(h, ss, m);
  }

  lemma ListedIsMap(h: Hasher, ss: seq<Slot>, m: map<Val, Json>)
    requires forall i | 0 <= i < |ss| :: Fits(h, ss[i], m)
    requires forall i, j | 0 <= i < j < |ss| :: Sem(ss[i].k) != Sem(ss[j].k)
    requires forall k | k in m :: exists i :: 0 <= i < |ss| && Sem(ss[i].k) == k
    ensures Upto(ss, |ss|) == m && |ss| == |m|
  {
    hide Sem, Fits, Upto;
    ListedPart(h, ss, m, |ss|);
    forall k | k in m ensures k in Upto(ss, |ss|) {
      UptoOnly(ss, |ss|, k);
    }
  }

  lemma {:induction false} ListedPart(h: Hasher, ss: seq<Slot>, m: map<Val, Json>, n: nat)
    requires n <= |ss| && forall i | 0 <= i < |ss| :: Fits(h, ss[i], m)
    requires forall i, j | 0 <= i < j < |ss| :: Sem(ss[i].k) != Sem(ss[j].k)
    ensures |Upto(ss, n)| == n && forall k | k in Upto(ss, n) :: k in m && m[k] == Upto(ss, n)[k]
  {
    hide Sem, Fits;
    if n > 0 {
      ListedPart(h, ss, m, n - 1);
      UptoOnly(ss, n - 1, Sem(ss[n - 1].k));
      OneMoreKey(Upto(ss, n - 1), Sem(ss[n - 1].k), ss[n - 1].v);
      SlotKey(h, ss[n - 1], m);
    }
  }

  lemma NextListed(h: Hasher, ss: seq<Slot>, m: map<Val, Json>, i: nat)
    requires Lists(h, ss, m) && i < |ss|
    ensures var s := ss[i];
            && Proper(s.k) && Proper(s.v) && s.hash == Hash(h, s.k) && Sem(s.k) in m && m[Sem(s.k)] == s.v
            && Sem(s.k) !in Upto(ss, i) && Upto(ss, i + 1) == Upto(ss, i)[Sem(s.k) := s.v]
  {
    hide Sem, Proper, Hash, Fits, Upto;
    SlotKey(h, ss[i], m);
    UptoOnly(ss, i, Sem(ss[i].k));
    NextSlot(ss, i);
  }

  lemma ListedAll(h: Hasher, ss: seq<Slot>, m: map<Val, Json>)
    requires Lists(h, ss, m)
    ensures Upto(ss, |ss|) == m
  {
  }

  lemma MeaningSize(m: map<Val, Json>)
    ensures |Meanings(m)| == |m|
  {
    hide Sem;
    var w := Meanings(m);
    assert w.Keys == m.Keys;
    assert |w.Keys| == |w| && |m.Keys| == |m|;
  }
}
