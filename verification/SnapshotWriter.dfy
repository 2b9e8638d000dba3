/** The snapshot writer as it runs: it appends to one buffer, reserves room for
    offsets it does not know yet, and fills each in once it is known. */
module SnapshotWriters {
  import opened ByteCodec
  import opened Names
  import opened Trees
  import opened SnapshotFormat
  import opened EncodingCaches

  /** An element has been appended behind the room; its offset `v` goes into the
      room's first free word. */
  lemma RoomFilled(before: Bytes, after: Bytes, front: Bytes, offs: seq<int>, room: nat, back: Bytes, more: Bytes, v: int)
    requires room >= 1
    requires before == front + Words(offs) + Zeros(4 * room) + back && after == before + more
    ensures |front| + 4 * |offs| + 4 <= |after|
    ensures Patched(after, |front| + 4 * |offs|, v)
         == front + Words(offs + [v]) + Zeros(4 * (room - 1)) + (back + more)
  {
    hide Words, Zeros, Patched;
    var w, z := Words(offs), Zeros(4 * room);
    assert after == front + w + z + (back + more);
    PatchNext(front, offs, room, back + more, v);
  }

  lemma ElementFilled(before: Bytes, after: Bytes, front: Bytes, kids: WrittenAll, room: nat, back: Bytes, last: Written)
    requires room >= 1
    requires before == front + Words(kids.offs) + Zeros(4 * room) + (back + kids.out)
    requires after == before + last.out
    ensures |front| + 4 * |kids.offs| + 4 <= |after|
    ensures Patched(after, |front| + 4 * |kids.offs|, last.off)
         == front + Words(kids.offs + [last.off]) + Zeros(4 * (room - 1)) + (back + (kids.out + last.out))
  {
    hide *;
    RoomFilled(before, after, front, kids.offs, room, back + kids.out, last.out, last.off);
    assert back + kids.out + last.out == back + (kids.out + last.out);
  }

  lemma RoomReserved(ts: seq<Tree>, base: int, len: nat, cache: Cache, front: Bytes, room: Bytes, back: Bytes)
    ensures WriteUpto(ts, 0, base, len, cache) == WrittenAll([], [], cache)
    ensures front + room + back == front + Words([]) + room + (back + [])
  {
    WordsNone();
  }

  class SnapshotWriter {
    var buffer: Bytes
    const base: int
    const cache: EncodingCache

    constructor (base: int, cache: EncodingCache)
      ensures buffer == [] && this.base == base && this.cache == cache
    {
      this.buffer, this.base, this.cache := [], base, cache;
    }

    /** What the writer has done since `start`, as one Written record. */
    twostate predicate Wrote(r: Written, off: int)
      reads this, cache
    {
      off == r.off && buffer == old(buffer) + r.out && cache.model == r.cache
    }

    method PutWord(pos: nat, v: int)
      requires pos + 4 <= |buffer|
      modifies this
      ensures buffer == Patched(old(buffer), pos, v)
    {
      hide EncodingCache.Valid;
      buffer := buffer[..pos] + Be32(v) + buffer[pos + 4..];
    }

    method Serialize(t: Tree) returns (off: int)
      requires cache.Valid() && Proper(t)
      modifies this, cache
      ensures cache.Valid() && Wrote(Write(t, base, |old(buffer)|, old(cache.model)), off)
      decreases t
    {
      hide *;
      match t {
        case Leaf(s) => off := SerializeLeaf(s);
        case Arr(elems) => off := SerializeArray(elems);
        case Obj(names, vals) => off := SerializeObject(names, vals);
      }
    }

    method SerializeLeaf(s: Scalar) returns (off: int)
      requires cache.Valid()
      modifies this, cache
      ensures cache.Valid() && Wrote(Write(Leaf(s), base, |old(buffer)|, old(cache.model)), off)
    {
      hide EncodingCache.Valid;
      hide ScalarBytes, WriteString, WriteNumber, Itoa;
      var offset := base + |buffer|;
      if s.Str? {
        off := SerializeString(s.text);
      } else if s.Int? {
        off := SerializeString(Itoa(s.i));
      } else if s.Num? {
        off := SerializeNumber(s.digits);
      } else if Embeds(s) && offset > base {
        // Not the first element of the document: the offset says it all.
        off := -(Tag(s) as int);
      } else {
        buffer := buffer + ScalarBytes(s);
        off := offset;
      }
    }

    method SerializeString(s: Bytes) returns (off: int)
      requires cache.Valid()
      modifies this, cache
      ensures cache.Valid() && Wrote(WriteString(s, base + |old(buffer)|, old(cache.model)), off)
    {
      hide EncodingCache.Valid;
      hide ScalarBytes, Atoi, Itoa;
      var offset := base + |buffer|;
      var existing := cache.CacheString(s, offset);
      if existing != offset {
        return existing;
      }
      var i := Atoi(s);
      if i.Some? && Itoa(i.value) == s {
        buffer := buffer + ScalarBytes(Int(i.value));
      } else {
        buffer := buffer + ScalarBytes(Str(s));
      }
      return offset;
    }

    method SerializeNumber(s: Bytes) returns (off: int)
      requires cache.Valid()
      modifies this, cache
      ensures cache.Valid() && Wrote(WriteNumber(s, base + |old(buffer)|, old(cache.model)), off)
    {
      hide EncodingCache.Valid;
      hide ScalarBytes, Atoi, Itoa;
      var offset := base + |buffer|;
      var existing := cache.CacheNumber(s, offset);
      if existing != offset {
        return existing;
      }
      buffer := buffer + ScalarBytes(Num(s));
      return offset;
    }

    /** The elements of a container, whose offsets go into the room that follows
        `front`; `back` has been written behind that room. */
    method SerializeElements(ts: seq<Tree>, ghost front: Bytes, ghost back: Bytes, start: nat) returns (ghost kids: WrittenAll)
      requires cache.Valid() && forall i | 0 <= i < |ts| :: Proper(ts[i])
      requires buffer == front + Zeros(4 * |ts|) + back && start == |front|
      modifies this, cache
      ensures cache.Valid()
      ensures kids == WriteUpto(ts, |ts|, base, |old(buffer)|, old(cache.model)) && |kids.offs| == |ts|
      ensures buffer == front + Words(kids.offs) + back + kids.out && cache.model == kids.cache
      decreases ts, |ts|
    {
      hide EncodingCache.Valid;
      hide Write, WriteUpto, Words, Zeros, Patched, Proper;
      var n, offsets, len := |ts|, start, |buffer|;
      kids := WrittenAll([], [], cache.model);
      RoomReserved(ts, base, len, cache.model, front, Zeros(4 * n), back);
      for i := 0 to n
        invariant cache.Valid() && cache.model == kids.cache
        invariant kids == WriteUpto(ts, i, base, len, old(cache.model)) && offsets == start + 4 * i
        invariant buffer == front + Words(kids.offs) + Zeros(4 * (n - i)) + (back + kids.out)
        invariant |buffer| == len + |kids.out|
      {
        ghost var before := buffer;
        var element := Serialize(ts[i]);
        ghost var last := Write(ts[i], base, len + |kids.out|, kids.cache);
        WriteUptoStep(ts, i + 1, base, len, old(cache.model));
        ElementFilled(before, buffer, front, kids, n - i, back, last);
        PutWord(offsets, element);
        offsets := offsets + 4;
        kids := WrittenAll(kids.offs + [last.off], kids.out + last.out, last.cache);
      }
      RoomUsedUp(front, kids, back);
    }

    /** The names of a full object, whose offsets go into the room that follows
        `front`; the room for the values stands behind it. */
    method SerializeNames(names: seq<Bytes>, ghost front: Bytes, start: nat, ghost noffs: seq<int>)
      requires start == |front| && buffer == front + Zeros(4 * |names|) + Zeros(4 * |names|)
      requires noffs == NameOffsets(names, base + start + 8 * |names|)
      modifies this
      ensures buffer == front + Words(noffs) + Zeros(4 * |names|) + NameBytes(names, |names|)
    {
      hide EncodingCache.Valid;
      var n, keyOffsets := |names|, start;
      WordsNone();
      assert buffer == front + Words(noffs[..0]) + Zeros(4 * n) + (Zeros(4 * n) + NameBytes(names, 0));
      for i := 0 to n
        invariant keyOffsets == start + 4 * i
        invariant buffer == front + Words(noffs[..i]) + Zeros(4 * (n - i)) + (Zeros(4 * n) + NameBytes(names, i))
      {
        ghost var before := buffer;
        var nameOffset := base + |buffer|;
        buffer := buffer + PutString(names[i]);
        NamePatched(names, noffs, i, before, buffer, front, nameOffset);
        PutWord(keyOffsets, nameOffset);
        keyOffsets := keyOffsets + 4;
      }
      assert noffs[..n] == noffs;
      NamesDone(front, Words(noffs), Zeros(4 * n), NameBytes(names, n));
    }

    method SerializeArray(elems: seq<Tree>) returns (off: int)
      requires cache.Valid() && Proper(Arr(elems))
      modifies this, cache
      ensures cache.Valid() && Wrote(Write(Arr(elems), base, |old(buffer)|, old(cache.model)), off)
      decreases elems, |elems| + 1
    {
      hide EncodingCache.Valid;
      off := base + |buffer|;
      buffer := buffer + [T_ARRAY] + PutVarint(|elems|);
      var offsets := |buffer|;
      ghost var front := buffer;
      buffer := buffer + Zeros(4 * |elems|);
      assert buffer == front + Zeros(4 * |elems|) + [];
      ghost var kids := SerializeElements(elems, front, [], offsets);
      ArrayWritten(elems, base, old(buffer), old(cache.model), kids);
    }

    method SerializeFull(names: seq<Bytes>, vals: seq<Tree>, ghost before: Cache)
      requires cache.Valid() && |names| == |vals| && forall i | 0 <= i < |vals| :: Proper(vals[i])
      requires !(names in before.types && before.types[names] != base + |buffer|)
      requires cache.model == before.(types := before.types[names := base + |buffer|])
      modifies this, cache
      ensures cache.Valid() && Wrote(Write(Obj(names, vals), base, |old(buffer)|, before), base + |old(buffer)|)
      decreases vals, |vals| + 1
    {
      hide EncodingCache.Valid;
      hide Words, Write, WriteUpto, NameOffsets, NameBytes, PutVarint, Be32, Zeros, Proper;
      var n := |vals|;
      buffer := buffer + [T_OBJECT_FULL] + PutVarint(n);
      ghost var front, noffs := buffer, NameOffsets(names, base + |buffer| + 8 * n);
      var keyOffsets := |buffer|;
      buffer := buffer + Zeros(4 * n);
      var valueOffsets := |buffer|;
      buffer := buffer + Zeros(4 * n);
      SerializeNames(names, front, keyOffsets, noffs);
      ghost var w, named := Words(noffs), NameBytes(names, n);
      assert buffer == front + w + Zeros(4 * n) + named;
      ghost var kids := SerializeElements(vals, front + w, named, valueOffsets);
      FullWritten(names, vals, base, old(buffer), before, noffs, kids);
    }

    method SerializeObject(names: seq<Bytes>, vals: seq<Tree>) returns (off: int)
      requires cache.Valid() && Proper(Obj(names, vals))
      modifies this, cache
      ensures cache.Valid() && Wrote(Write(Obj(names, vals), base, |old(buffer)|, old(cache.model)), off)
      decreases vals, |vals| + 2
    {
      hide EncodingCache.Valid;
      hide Words, Write, WriteUpto, NameOffsets, NameBytes, PutVarint, Be32, Zeros;
      var n := |names|;
      assert n == |vals| && forall i | 0 <= i < |vals| :: Proper(vals[i]);
      hide Proper;
      off := base + |buffer|;
      var toffset := cache.CacheObjectType(names, off);
      if toffset == off {
        // First use of this shape: the names are written out.
        SerializeFull(names, vals, old(cache.model));
      } else {
        buffer := buffer + [T_OBJECT_THIN] + Be32(toffset);
        ghost var front := buffer;
        var valueOffsets := |buffer|;
        buffer := buffer + Zeros(4 * n);
        assert buffer == front + Zeros(4 * n) + [];
        ghost var kids := SerializeElements(vals, front, [], valueOffsets);
        assert old(cache.model).types[names := toffset] == old(cache.model).types;
        ThinWritten(names, vals, base, old(buffer), old(cache.model), kids);
      }
    }
  }

  lemma NamePatched(names: seq<Bytes>, noffs: seq<int>, i: nat, before: Bytes, after: Bytes, front: Bytes, v: int)
    requires i < |names| == |noffs| && v == noffs[i]
    requires before == front + Words(noffs[..i]) + Zeros(4 * (|names| - i)) + (Zeros(4 * |names|) + NameBytes(names, i))
    requires after == before + PutString(names[i])
    ensures |front| + 4 * i + 4 <= |after|
    ensures Patched(after, |front| + 4 * i, v)
         == front + Words(noffs[..i + 1]) + Zeros(4 * (|names| - i - 1)) + (Zeros(4 * |names|) + NameBytes(names, i + 1))
  {
    assert NameBytes(names, i + 1) == NameBytes(names, i) + PutString(names[i]);
    hide *;
    var room, z, more := |names| - i, Zeros(4 * |names|), PutString(names[i]);
    RoomFilled(before, after, front, noffs[..i], room, z + NameBytes(names, i), more, v);
    assert noffs[..i + 1] == noffs[..i] + [v];
    assert z + NameBytes(names, i) + more == z + (NameBytes(names, i) + more);
  }

  lemma NamesDone(front: Bytes, w: Bytes, z: Bytes, named: Bytes)
    ensures front + w + Zeros(0) + (z + named) == front + w + z + named
  {
  }

  lemma RoomUsedUp(front: Bytes, kids: WrittenAll, back: Bytes)
    ensures front + Words(kids.offs) + Zeros(0) + (back + kids.out) == front + Words(kids.offs) + back + kids.out
  {
    hide Words;
  }

  lemma ArrayWritten(elems: seq<Tree>, base: int, c: Bytes, cache: Cache, kids: WrittenAll)
    requires var front := c + [T_ARRAY] + PutVarint(|elems|);
             kids == WriteUpto(elems, |elems|, base, |front + Zeros(4 * |elems|)|, cache)
    ensures var r := Write(Arr(elems), base, |c|, cache);
            && r.off == base + |c| && r.cache == kids.cache
            && c + [T_ARRAY] + PutVarint(|elems|) + Words(kids.offs) + [] + kids.out == c + r.out
  {
    hide Words, Write, WriteUpto, PutVarint;
    var more, head := WriteArrayParts(elems, base, |c|, cache);
    assert more == kids;
    HeadAssoc(c, [T_ARRAY], PutVarint(|elems|), Words(kids.offs), kids.out);
  }

  lemma ThinWritten(names: seq<Bytes>, vals: seq<Tree>, base: int, c: Bytes, cache: Cache, kids: WrittenAll)
    requires |names| == |vals| && names in cache.types && cache.types[names] != base + |c|
    requires var front := c + [T_OBJECT_THIN] + Be32(cache.types[names]);
             kids == WriteUpto(vals, |vals|, base, |front + Zeros(4 * |names|)|, cache)
    ensures var r := Write(Obj(names, vals), base, |c|, cache);
            && r.off == base + |c| && r.cache == kids.cache
            && c + [T_OBJECT_THIN] + Be32(cache.types[names]) + Words(kids.offs) + [] + kids.out == c + r.out
  {
    hide Words, Write, WriteUpto, Be32;
    var more, head := WriteThinParts(names, vals, base, |c|, cache);
    assert more == kids;
    HeadAssoc(c, [T_OBJECT_THIN], Be32(cache.types[names]), Words(kids.offs), kids.out);
  }

  lemma FullWritten(names: seq<Bytes>, vals: seq<Tree>, base: int, c: Bytes, cache: Cache, noffs: seq<int>, kids: WrittenAll)
    requires |names| == |vals| && !(names in cache.types && cache.types[names] != base + |c|)
    requires var front, n := c + [T_OBJECT_FULL] + PutVarint(|names|), |names|;
             && noffs == NameOffsets(names, base + |front| + 8 * n)
             && kids == WriteUpto(vals, n, base, |front| + 8 * n + |NameBytes(names, n)|,
                                  cache.(types := cache.types[names := base + |c|]))
    ensures var r := Write(Obj(names, vals), base, |c|, cache);
            && r.off == base + |c| && r.cache == kids.cache
            && c + [T_OBJECT_FULL] + PutVarint(|names|) + Words(noffs) + Words(kids.offs) + NameBytes(names, |names|) + kids.out
            == c + r.out
  {
    hide Words, Write, WriteUpto, NameOffsets, NameBytes, PutVarint;
    var more, noffs', head, w, x, named := WriteFullParts(names, vals, base, |c|, cache);
    assert more == kids && noffs' == noffs;
    FullAssoc(c, PutVarint(|names|), w, x, named, kids.out);
  }

  lemma HeadAssoc(c: Bytes, tag: Bytes, n: Bytes, w: Bytes, out: Bytes)
    ensures c + tag + n + w + [] + out == c + (tag + n + w + out)
  {
  }

  lemma FullAssoc(c: Bytes, n: Bytes, w: Bytes, x: Bytes, named: Bytes, out: Bytes)
    ensures c + [T_OBJECT_FULL] + n + w + x + named + out == c + ([T_OBJECT_FULL] + n + w + x + named + out)
  {
  }
}
