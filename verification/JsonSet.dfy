/** The set of evaluation: the same growing tables, with members in place of keys. */
module JsonSets {
  import opened ByteCodec
  import opened JsonValues
  import opened JsonHashes
  import opened JsonTables

  /** A member's slot; sets have no values beside their members. */
  function Member(hash: nat, v: Json): Slot { Slot(hash, v, Null) }

  /** The map that stands for a set of meanings. */
  ghost function AsMap(s: set<Val>): map<Val, Json> { map v | v in s :: Null }

  lemma AsMapAdded(s: set<Val>, v: Val)
    ensures AsMap(s + {v}) == AsMap(s)[v := Null]
    ensures v in s ==> s + {v} == s
    ensures |AsMap(s)| == |s| && (v !in s ==> |s + {v}| == |s| + 1)
  {
    assert AsMap(s).Keys == s;
    assert |AsMap(s).Keys| == |AsMap(s)|;
    if v in s {
      assert s + {v} == s;
    }
  }

  /** A member that is there is replaced by an equal one. */
  lemma MemberReplaced(h: Hasher, t: Slots, m: map<Val, Json>, hash: nat, i: nat, v: Json)
    requires Holds(h, t, m) && i < |t.Bucket(hash)| && t.Bucket(hash)[i] == Slot(hash, t.Bucket(hash)[i].k, Null)
    requires Proper(v) && hash == Hash(h, v) && Sem(v) == Sem(t.Bucket(hash)[i].k)
    ensures Holds(h, t.With(hash, t.Bucket(hash)[i := Member(hash, v)]), m)
  {
    hide Sem, Proper, Hash, Fits, BucketOK;
    var b := t.Bucket(hash);
    var t' := t.With(hash, b[i := Member(hash, v)]);
    forall g: nat ensures BucketOK(h, t', m, g) {
      MemberBucket(h, t, m, hash, i, v, g);
    }
    forall l | l in m ensures Stored(t', l) {
      assert Stored(t, l);
      var s: Slot :| s in t.Bucket(s.hash) && Sem(s.k) == l;
      var u := if s == b[i] then Member(hash, v) else s;
      if u.hash == hash || t.Compact? {
        var j :| 0 <= j < |t.Bucket(s.hash)| && t.Bucket(s.hash)[j] == s;
        assert t'.Bucket(u.hash)[if s == b[i] then i else j] == u;
      }
      assert u in t'.Bucket(u.hash);
    }
  }

  lemma MemberBucket(h: Hasher, t: Slots, m: map<Val, Json>, hash: nat, i: nat, v: Json, g: nat)
    requires Holds(h, t, m) && i < |t.Bucket(hash)| && t.Bucket(hash)[i] == Slot(hash, t.Bucket(hash)[i].k, Null)
    requires Proper(v) && hash == Hash(h, v) && Sem(v) == Sem(t.Bucket(hash)[i].k)
    ensures BucketOK(h, t.With(hash, t.Bucket(hash)[i := Member(hash, v)]), m, g)
  {
    hide Sem, Proper, Hash, Fits;
    var b := t.Bucket(hash);
    assert BucketOK(h, t, m, g) && BucketOK(h, t, m, hash);
    SlotFits(h, t, m, hash, i);
    SlotKey(h, b[i], m);
    MemberFits(h, v, m, hash);
    var d := t.With(hash, b[i := Member(hash, v)]).Bucket(g);
    assert d == if t.Compact? || g == hash then b[i := Member(hash, v)] else t.Bucket(g);
  }

  lemma NullIsProper()
    ensures Proper(Null)
  {
  }

  lemma MemberFits(h: Hasher, v: Json, m: map<Val, Json>, hash: nat)
    requires Proper(v) && hash == Hash(h, v) && Sem(v) in m && m[Sem(v)] == Null
    ensures Fits(h, Member(hash, v), m)
  {
    hide Sem, Hash;
  }

  lemma ValuesAreNull(h: Hasher, t: Slots, s: set<Val>, hash: nat, i: nat)
    requires Holds(h, t, AsMap(s)) && i < |t.Bucket(hash)|
    ensures t.Bucket(hash)[i].v == Null
  {
    hide Sem, Proper, Hash;
    SlotFits(h, t, AsMap(s), hash, i);
  }

  class MemberSet {
    const h: Hasher
    const capacity: Option<nat>
    var slots: Slots
    var n: nat
    ghost var members: set<Val>

    ghost predicate Valid()
      reads this
    {
      && Holds(h, slots, AsMap(members)) && n == |members|
      && (capacity.Some? <==> slots.Compact?)
      && (capacity.Some? ==> n == |slots.table| <= capacity.value)
    }

    predicate Full()
      reads this
    {
      capacity.Some? && n == capacity.value
    }

    constructor (h: Hasher, size: nat)
      ensures Valid() && members == {} && this.h == h && capacity == CapacityFor(size)
    {
      this.h, this.capacity := h, CapacityFor(size);
      slots := if CapacityFor(size).Some? then Compact([]) else Large(map[]);
      n, members := 0, {};
    }

    method FindMember(hash: nat, v: Json) returns (i: int)
      requires Valid() && Proper(v) && hash == Hash(h, v)
      ensures -1 <= i < |slots.Bucket(hash)|
      ensures i >= 0 ==> Sem(slots.Bucket(hash)[i].k) == Sem(v) && slots.Bucket(hash)[i].hash == hash
      ensures i >= 0 <==> Sem(v) in members
    {
      hide Sem, Proper, EqualOp, Hash, Fits;
      var b := slots.Bucket(hash);
      ghost var m := AsMap(members);
      for j := 0 to |b|
        invariant forall l | 0 <= l < j :: Sem(b[l].k) != Sem(v)
      {
        SlotFits(h, slots, m, hash, j);
        SlotKey(h, b[j], m);
        EqualMeans(b[j].k, v);
        if b[j].hash == hash && EqualOp(b[j].k, v) {
          return j;
        }
        if Sem(b[j].k) == Sem(v) {
          SameHash(h, b[j].k, v);
        }
      }
      NotStored(h, slots, m, hash, v);
      return -1;
    }

    method Get(hash: nat, v: Json) returns (found: bool)
      requires Valid() && Proper(v) && hash == Hash(h, v)
      ensures found <==> Sem(v) in members
    {
      hide Sem, Proper, Hash, Holds;
      var i := FindMember(hash, v);
      return i >= 0;
    }

    /** Addition to a table with room; chains take the new representative. */
    method Put(hash: nat, v: Json)
      requires Valid() && !Full() && Proper(v) && hash == Hash(h, v)
      modifies this
      ensures Valid() && members == old(members) + {Sem(v)}
    {
      hide Sem, Proper, Hash, Holds, AsMap;
      var i := FindMember(hash, v);
      AsMapAdded(members, Sem(v));
      if i >= 0 {
        if slots.Large? {
          ValuesAreNull(h, slots, members, hash, i);
          MemberReplaced(h, slots, AsMap(members), hash, i, v);
          slots := slots.With(hash, slots.Bucket(hash)[i := Member(hash, v)]);
        }
      } else {
        NotThere(members, Sem(v));
        NullIsProper();
        AppendHolds(h, slots, AsMap(members), Member(hash, v));
        slots := Appended(slots, Member(hash, v));
        n := n + 1;
        members := members + {Sem(v)};
      }
    }

    /** A full table moves into the next larger one. */
    method Grown() returns (o: MemberSet)
      requires Valid() && Full()
      ensures fresh(o) && o.Valid() && !o.Full() && o.members == members && o.h == h
    {
      hide Sem, Proper, Hash, Fits, Holds, AsMap;
      o := new MemberSet(h, n + 1);
      for i := 0 to n
        invariant fresh(o) && o.Valid() && o.h == h && o.n <= i && o.capacity == CapacityFor(n + 1)
        invariant o.members == KeysUpto(slots.table, i)
      {
        var s := slots.table[i];
        SlotFits(h, slots, AsMap(members), s.hash, i);
        SlotKey(h, s, AsMap(members));
        SizeGrows(o.members, Sem(s.k));
        o.Put(s.hash, s.k);
      }
      AllKeys(h, slots, members);
    }

    /** Add and add. */
    method Add(hash: nat, v: Json) returns (o: MemberSet)
      requires Valid() && Proper(v) && hash == Hash(h, v)
      modifies this
      ensures o == this || (fresh(o) && members == old(members) && slots == old(slots) && Valid())
      ensures o.Valid() && o.h == h && o.members == old(members) + {Sem(v)}
    {
      hide Sem, Proper, Hash, Holds;
      if Full() {
        o := Grown();
        o.Put(hash, v);
      } else {
        Put(hash, v);
        o := this;
      }
    }

    /** All members, chain by chain. */
    method Listed() returns (ss: seq<Slot>)
      requires Valid()
      ensures Lists(h, ss, AsMap(members)) && |ss| == n
    {
      hide Sem, Proper, Hash, Fits, Holds, Lists, AsMap;
      ghost var m := AsMap(members);
      AsMapAdded(members, VNull);
      if slots.Compact? {
        CompactLists(h, slots, m);
        return slots.table;
      }
      ss := [];
      var hs := slots.chains.Keys;
      NothingListed(h, slots, m);
      while hs != {}
        invariant hs <= slots.chains.Keys && Listing(h, slots, m, ss, hs)
        decreases hs
      {
        var x: nat :| x in hs;
        ChainListed(h, slots, m, ss, hs, x);
        ss := ss + slots.chains[x];
        hs := hs - {x};
      }
      AllListed(h, slots, m, ss);
    }

    /** mergeTo: every member is added to the other set, which may be this one. */
    method MergeTo(other: MemberSet) returns (o: MemberSet)
      requires Valid() && other.Valid() && other.h == h
      modifies other
      ensures (o == other || fresh(o)) && o.Valid() && o.h == h && o.members == old(members) + old(other.members)
      ensures other == this ==> o.members == old(members)
    {
      hide *;
      var ss := Listed();
      KeysOfMap(members);
      o := AddAll(ss, AsMap(members), other);
    }

    /** Equal: equally many members, each found in the other set. */
    method Equal(other: MemberSet) returns (eq: bool)
      requires Valid() && other.Valid() && other.h == h
      ensures eq <==> members == other.members
    {
      hide Sem, Proper, Hash, Fits, Holds, Lists, AsMap, Upto;
      if n != other.n {
        return false;
      }
      var ss := Listed();
      NothingYet(ss);
      KeysOfMap(members);
      for i := 0 to |ss|
        invariant Upto(ss, i).Keys <= other.members
      {
        NextListed(h, ss, AsMap(members), i);
        var found := other.Get(ss[i].hash, ss[i].k);
        if !found {
          assert Sem(ss[i].k) in members;
          return false;
        }
      }
      ListedAll(h, ss, AsMap(members));
      SubsetOfSameSize(members, other.members);
      return true;
    }
  }

  /** The members in a list are added one by one. */
  method AddAll(ss: seq<Slot>, ghost all: map<Val, Json>, other: MemberSet) returns (o: MemberSet)
    requires Lists(other.h, ss, all) && other.Valid()
    modifies other
    ensures (o == other || fresh(o)) && o.Valid() && o.h == other.h && o.members == all.Keys + old(other.members)
  {
    hide Sem, Proper, Hash, Fits, Holds, Lists, AsMap, Upto, MemberSet.Valid;
    o := other;
    ghost var was := other.members;
    NothingYet(ss);
    for i := 0 to |ss|
      invariant (o == other || fresh(o)) && o.Valid() && o.h == other.h
      invariant o.members == Upto(ss, i).Keys + was
    {
      NextListed(other.h, ss, all, i);
      OneMoreMember(Upto(ss, i), Sem(ss[i].k), ss[i].v, was);
      o := o.Add(ss[i].hash, ss[i].k);
    }
    ListedAll(other.h, ss, all);
  }

  lemma OneMoreMember(m: map<Val, Json>, k: Val, v: Json, was: set<Val>)
    ensures m[k := v].Keys + was == m.Keys + was + {k}
  {
  }

  lemma NotThere(s: set<Val>, v: Val)
    requires v !in s
    ensures v !in AsMap(s)
  {
  }

  lemma KeysOfMap(s: set<Val>)
    ensures AsMap(s).Keys == s
  {
  }

  lemma SizeGrows(s: set<Val>, v: Val)
    ensures |s + {v}| <= |s| + 1
  {
    if v in s {
      assert s + {v} == s;
    }
  }

  ghost function KeysUpto(ss: seq<Slot>, n: nat): set<Val>
    requires n <= |ss|
  {
    set i | 0 <= i < n :: Sem(ss[i].k)
  }

  lemma AllKeys(h: Hasher, t: Slots, s: set<Val>)
    requires Holds(h, t, AsMap(s)) && t.Compact?
    ensures KeysUpto(t.table, |t.table|) == s
  {
    hide Sem, Fits;
    forall v | v in s ensures v in KeysUpto(t.table, |t.table|) {
      assert v in AsMap(s);
      assert Stored(t, v);
      var u: Slot :| u in t.table && Sem(u.k) == v;
    }
    forall i | 0 <= i < |t.table| ensures Sem(t.table[i].k) in s {
      SlotFits(h, t, AsMap(s), 0, i);
      SlotKey(h, t.table[i], AsMap(s));
    }
  }
}
