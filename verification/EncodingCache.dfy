/** The writer's cache: strings and object shapes live in hash buckets searched in
    order, and any hash function gives the same maps. */
module EncodingCaches {
  import opened ByteCodec
  import opened SnapshotFormat

  /** The first entry of a bucket with this key. */
  function FirstIn<K(==)>(bucket: seq<(K, int)>, key: K): Option<int> {
    if bucket == [] then None
    else
      var n := |bucket| - 1;
      var earlier := FirstIn(bucket[..n], key);
      if earlier.Some? then earlier
      else if bucket[n].0 == key then Some(bucket[n].1)
      else None
  }

  function Lookup<K(==)>(table: map<nat, seq<(K, int)>>, h: nat, key: K): Option<int> {
    if h in table then FirstIn(table[h], key) else None
  }

  function Entry<K>(m: map<K, int>, key: K): Option<int> {
    if key in m then Some(m[key]) else None
  }

  lemma FirstInAppended<K>(bucket: seq<(K, int)>, key: K, off: int, other: K)
    ensures FirstIn(bucket + [(key, off)], other) ==
            if FirstIn(bucket, other).Some? then FirstIn(bucket, other)
            else if key == other then Some(off) else None
  {
    assert (bucket + [(key, off)])[..|bucket|] == bucket;
  }

  method FindIn<K(==)>(bucket: seq<(K, int)>, key: K) returns (r: Option<int>)
    ensures r == FirstIn(bucket, key)
  {
    var i := 0;
    while i < |bucket|
      invariant 0 <= i <= |bucket| && FirstIn(bucket[..i], key) == None
    {
      assert bucket[..i + 1][..i] == bucket[..i];
      if bucket[i].0 == key {
        FirstInPrefix(bucket, key, i + 1);
        return Some(bucket[i].1);
      }
      i := i + 1;
    }
    assert bucket[..i] == bucket;
    return None;
  }

  lemma {:induction false} FirstInPrefix<K>(bucket: seq<(K, int)>, key: K, n: nat)
    requires n <= |bucket| && FirstIn(bucket[..n], key).Some?
    ensures FirstIn(bucket, key) == FirstIn(bucket[..n], key)
  {
    if n == |bucket| {
      assert bucket[..n] == bucket;
    } else {
      var m := |bucket| - 1;
      assert bucket[..m][..n] == bucket[..n];
      FirstInPrefix(bucket[..m], key, n);
    }
  }

  class EncodingCache {
    const hash: Bytes -> nat
    var objectTypes: map<nat, seq<(seq<Bytes>, int)>>
    var strings: map<nat, seq<(Bytes, int)>>
    var numbers: map<Bytes, int>
    ghost var model: Cache

    /** The sum of the hashes of the names, modulo 2^64. */
    function TypeHash(names: seq<Bytes>, n: nat): nat
      requires n <= |names|
    {
      if n == 0 then 0 else (TypeHash(names, n - 1) + hash(names[n - 1])) % TWO_64
    }

    ghost predicate Valid()
      reads this
    {
      && numbers == model.nums
      && (forall s: Bytes :: Lookup(strings, hash(s), s) == Entry(model.strs, s))
      && (forall ns: seq<Bytes> :: Lookup(objectTypes, TypeHash(ns, |ns|), ns) == Entry(model.types, ns))
    }

    constructor (hash: Bytes -> nat)
      ensures Valid() && model == EMPTY && this.hash == hash
    {
      this.hash := hash;
      objectTypes, strings, numbers := map[], map[], map[];
      model := EMPTY;
    }

    /** The offset of an earlier copy of the string, or the new offset, which is
        remembered from now on. */
    method CacheString(s: Bytes, offset: int) returns (r: int)
      requires Valid()
      modifies this
      ensures Valid()
      ensures r == (if s in old(model.strs) then old(model.strs)[s] else offset)
      ensures model == old(model).(strs := old(model.strs)[s := r])
    {
      var h := hash(s);
      var bucket := if h in strings then strings[h] else [];
      assert Lookup(strings, h, s) == FirstIn(bucket, s) == Entry(model.strs, s);
      var found := FindIn(bucket, s);
      if found.Some? {
        assert model.strs == model.strs[s := found.value];
        return found.value;
      }
      forall other: Bytes
        ensures Lookup(strings[h := bucket + [(s, offset)]], hash(other), other) == Entry(model.strs[s := offset], other)
      {
        FirstInAppended(bucket, s, offset, other);
        assert Lookup(strings, hash(other), other) == Entry(model.strs, other);
      }
      strings := strings[h := bucket + [(s, offset)]];
      model := model.(strs := model.strs[s := offset]);
      return offset;
    }

    method CacheNumber(n: Bytes, offset: int) returns (r: int)
      requires Valid()
      modifies this
      ensures Valid()
      ensures r == (if n in old(model.nums) then old(model.nums)[n] else offset)
      ensures model == old(model).(nums := old(model.nums)[n := r])
    {
      if n in numbers {
        assert model.nums == model.nums[n := numbers[n]];
        return numbers[n];
      }
      numbers := numbers[n := offset];
      model := model.(nums := model.nums[n := offset]);
      return offset;
    }

    /** The same for object shapes: two objects have one shape when they have the
        same names in the same order. */
    method CacheObjectType(names: seq<Bytes>, offset: int) returns (r: int)
      requires Valid()
      modifies this
      ensures Valid()
      ensures r == (if names in old(model.types) then old(model.types)[names] else offset)
      ensures model == old(model).(types := old(model.types)[names := r])
    {
      var h := 0;
      for i := 0 to |names|
        invariant h == TypeHash(names, i)
      {
        h := (h + hash(names[i])) % TWO_64;
      }
      var bucket := if h in objectTypes then objectTypes[h] else [];
      assert Lookup(objectTypes, h, names) == FirstIn(bucket, names) == Entry(model.types, names);
      var found := FindIn(bucket, names);
      if found.Some? {
        assert model.types == model.types[names := found.value];
        return found.value;
      }
      forall other: seq<Bytes>
        ensures Lookup(objectTypes[h := bucket + [(names, offset)]], TypeHash(other, |other|), other)
             == Entry(model.types[names := offset], other)
      {
        FirstInAppended(bucket, names, offset, other);
        assert Lookup(objectTypes, TypeHash(other, |other|), other) == Entry(model.types, other);
      }
      objectTypes := objectTypes[h := bucket + [(names, offset)]];
      model := model.(types := model.types[names := offset]);
      return offset;
    }
  }
}
