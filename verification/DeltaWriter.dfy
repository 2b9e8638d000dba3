/** The delta writer as it runs: one growing buffer with rooms for offsets, an override
    map updated on the way, a cache of strings and numbers, and two hash caches. */
module DeltaWriters {
  import opened ByteCodec
  import opened Names
  import opened Trees
  import opened Reader
  import opened StoredShapes
  import opened Containers
  import opened SnapshotFormat
  import opened EncodingCaches
  import opened SnapshotWriters
  import opened DeltaValues
  import opened DeltaFormat
  import opened DeltaFrame
  import opened DeltaProof
  import opened Lookups
  import opened ArrayDiffs
  import opened DeltaFiles

  /** Arrays that come to be compared with each other hold no binary data, which cannot
      be hashed. Elsewhere there may be some. */
  ghost predicate BlobsApart(ta: Tree, tb: Tree)
    decreases ta
  {
    && (ta.Arr? && tb.Arr? ==> NoBlobs(ta) && NoBlobs(tb))
    && (ta.Obj? && tb.Obj? ==> FieldBlobsApart(ta.names, ta.vals, tb.names, tb.vals))
  }

  /** Values under the same name are compared. */
  ghost predicate FieldBlobsApart(names: seq<Bytes>, tas: seq<Tree>, bnames: seq<Bytes>, tbs: seq<Tree>)
    decreases tas
  {
    forall i, j | 0 <= i < |tas| && i < |names| && 0 <= j < |tbs| && j < |bnames| && names[i] == bnames[j] ::
      BlobsApart(tas[i], tbs[j])
  }

  lemma CopyOneMore(ts: seq<Tree>, n: nat, at: int, cache: Cache, kids: WrittenAll, last: Written)
    requires n < |ts| && kids == CopyUpto(ts, n, at, cache)
    requires last == Copy(ts[n], at + |kids.out|, true, kids.cache)
    ensures WrittenAll(kids.offs + [last.off], kids.out + last.out, last.cache) == CopyUpto(ts, n + 1, at, cache)
  {
    hide Copy, CopyUpto;
    CopyUptoStep(ts, n + 1, at, cache);
  }

  lemma NameOneMore(names: seq<Bytes>, n: nat, at: int, cache: Cache, named: WrittenAll, last: Written)
    requires n < |names| && named == CachedNames(names, n, at, cache)
    requires last == CachedString(names[n], at + |named.out|, named.cache)
    ensures WrittenAll(named.offs + [last.off + 1], named.out + last.out, last.cache) == CachedNames(names, n + 1, at, cache)
  {
    hide CachedNames, CachedString;
    CachedNamesStep(names, n + 1, at, cache);
  }

  lemma CopyBegun(ts: seq<Tree>, at: int, cache: Cache, front: Bytes, room: Bytes, back: Bytes)
    ensures CopyUpto(ts, 0, at, cache) == WrittenAll([], [], cache)
    ensures front + room + back == front + Words([]) + room + (back + [])
  {
    WordsNone();
  }

  lemma NamesBegun(names: seq<Bytes>, at: int, cache: Cache, front: Bytes, room: Bytes, back: Bytes)
    ensures CachedNames(names, 0, at, cache) == WrittenAll([], [], cache)
    ensures front + room + back == front + Words([]) + room + (back + [])
  {
    WordsNone();
  }

  lemma ArrayCopied(elems: seq<Tree>, at: int, embed: bool, c: Bytes, cache: Cache, kids: WrittenAll)
    requires kids == CopyUpto(elems, |elems|, at + 1 + |PutVarint(|elems|)| + 4 * |elems|, cache)
    ensures var r := Copy(Arr(elems), at, embed, cache);
            && r.off == at && r.cache == kids.cache
            && c + [T_ARRAY] + PutVarint(|elems|) + Words(kids.offs) + [] + kids.out == c + r.out
  {
    hide Words, Copy, CopyUpto, PutVarint;
    var more, head := CopyArrayParts(elems, at, embed, cache);
    assert |Words(more.offs)| == 4 * |elems|;
    HeadAssoc(c, [T_ARRAY], PutVarint(|elems|), Words(kids.offs), kids.out);
  }

  lemma ObjectCopied(names: seq<Bytes>, vals: seq<Tree>, at: int, embed: bool, c: Bytes, cache: Cache,
                     named: WrittenAll, kids: WrittenAll)
    requires |names| == |vals|
    requires var n := at + 1 + |PutVarint(|names|)| + 8 * |names|;
             && named == CachedNames(names, |names|, n, cache)
             && kids == CopyUpto(vals, |vals|, n + |named.out|, named.cache)
    ensures var r := Copy(Obj(names, vals), at, embed, cache);
            && r.off == at && r.cache == kids.cache
            && c + [T_OBJECT_FULL] + PutVarint(|names|) + Words(named.offs) + Words(kids.offs) + named.out + kids.out
            == c + r.out
  {
    hide Words, Copy, CopyUpto, CachedNames, PutVarint;
    var named', kids', head, w, x := CopyObjectParts(names, vals, at, embed, cache);
    assert |w| == 4 * |names| && |x| == 4 * |names|;
    assert named' == named && kids' == kids;
    FullAssoc(c, PutVarint(|names|), w, x, named.out, kids.out);
  }

  lemma PickOneMore(aoffs: seq<int>, sas: seq<Stored>, sbs: seq<Stored>, n: nat, at: int, cache: Cache, kids: WrittenAll, last: Written)
    requires |aoffs| == |sas| && n < |sbs| && kids == PickUpto(aoffs, sas, sbs, n, at, cache)
    requires var j := FirstEqual(sas, sbs[n]);
             last == if j >= 0 then Written(aoffs[j], [], kids.cache) else Copy(Doc(sbs[n]), at + |kids.out|, true, kids.cache)
    ensures WrittenAll(kids.offs + [last.off], kids.out + last.out, last.cache) == PickUpto(aoffs, sas, sbs, n + 1, at, cache)
  {
    hide PickUpto, Copy, FirstEqual, Doc;
    PickStep(aoffs, sas, sbs, n + 1, at, cache);
  }

  lemma ArrayDiffed(aoff: int, aoffs: seq<int>, sas: seq<Stored>, sbs: seq<Stored>, at: int, over: map<int, int>, c: Bytes,
                    cache: Cache, kids: WrittenAll)
    requires |aoffs| == |sas| && !SameArray(aoffs, sas, sbs)
    requires kids == PickUpto(aoffs, sas, sbs, |sbs|, at + 1 + |PutVarint(|sbs|)| + 4 * |sbs|, cache)
    ensures var d := DiffArray(aoff, aoffs, sas, sbs, at, over, cache);
            && d == Diffed(at, false, d.out, over[aoff := at], kids.cache)
            && c + [T_ARRAY] + PutVarint(|sbs|) + Words(kids.offs) + kids.out == c + d.out
  {
    hide Words, PickUpto, PutVarint, DiffArray, SameArray;
    var more, head := DiffArrayParts(aoff, aoffs, sas, sbs, at, over, cache);
    assert |Words(more.offs)| == 4 * |sbs|;
    assert more == kids;
    assert c + [T_ARRAY] + PutVarint(|sbs|) + Words(kids.offs) + [] == c + [T_ARRAY] + PutVarint(|sbs|) + Words(kids.offs);
    HeadAssoc(c, [T_ARRAY], PutVarint(|sbs|), Words(kids.offs), kids.out);
  }

  lemma PickBegun(aoffs: seq<int>, sas: seq<Stored>, sbs: seq<Stored>, at: int, cache: Cache)
    requires |aoffs| == |sas|
    ensures PickUpto(aoffs, sas, sbs, 0, at, cache) == WrittenAll([], [], cache)
  {
  }

  lemma PickAt(picks: seq<ArrayIndex>, aoffs: seq<int>, boffs: seq<int>, sas: seq<Stored>, sbs: seq<Stored>, i: nat)
    requires |aoffs| == |sas| && |boffs| == |sbs| && PicksOK(picks, aoffs, boffs, sas, sbs) && i < |picks|
    ensures |picks| <= |sbs|
    ensures var j := FirstEqual(sas, sbs[i]);
            picks[i] == if j >= 0 then ArrayIndex(false, aoffs[j]) else ArrayIndex(true, boffs[i])
  {
  }

  lemma ComparableSizes(v: View, offs: seq<int>, ts: seq<Tree>)
    requires Comparables(v, offs, ts)
    ensures |offs| == |ts|
  {
  }

  lemma ComparableAt(v: View, offs: seq<int>, ts: seq<Tree>, i: nat)
    requires Comparables(v, offs, ts) && i < |ts|
    ensures |offs| == |ts| && Denotes(v, offs[i], ts[i]) && Proper(ts[i])
  {
  }

  lemma DiffArraySame(aoff: int, aoffs: seq<int>, sas: seq<Stored>, sbs: seq<Stored>, at: int, over: map<int, int>, cache: Cache)
    requires |aoffs| == |sas| && SameArray(aoffs, sas, sbs)
    ensures DiffArray(aoff, aoffs, sas, sbs, at, over, cache) == Diffed(0, false, [], over, cache)
  {
  }

  lemma AddOneMore(f: Fields, n: nat, at: int, p: Progress, q: Progress, s: Written, r: Written)
    requires |f.bnames| == |f.tbs| && n < |f.bnames| && q == AddUpto(f, n, at, p)
    requires s == CachedString(f.bnames[n], at + |q.out|, q.cache)
    requires r == Copy(f.tbs[n], at + |q.out| + |s.out|, true, s.cache)
    ensures AddUpto(f, n + 1, at, p) ==
            if f.bnames[n] in f.names then q
            else Progress(q.changes[f.bnames[n] := Slot(s.off + 1, r.off)], q.out + s.out + r.out, q.over, r.cache)
  {
    hide AddUpto, Copy, CachedString;
    var q', s', r' := AddStep(f, n, at, p);
  }

  lemma CompareBegun(a: Bytes, f: Fields, at: int, over: map<int, int>, cache: Cache)
    requires f.Valid() && DenotesAll(Snapshot(a), f.voffs, f.tas)
    ensures CompareUpto(a, f, 0, at, over, cache) == Progress(map[], [], over, cache)
  {
    hide Denotes, Proper;
  }

  lemma ObjectDiffed(a: Bytes, aoff: int, f: Fields, at: int, over: map<int, int>, cache: Cache, p: Progress, w: Bytes, c: Bytes)
    requires f.Valid() && DenotesAll(Snapshot(a), f.voffs, f.tas)
    requires p == AddUpto(f, |f.bnames|, at, CompareUpto(a, f, |f.names|, at, over, cache))
    requires w == PatchBytes(aoff, |f.bnames|, p.changes)
    ensures DiffObject(a, aoff, f, at, over, cache) ==
            if p.changes == map[] then Diffed(0, false, p.out, p.over, p.cache)
            else Diffed(at + |p.out|, false, p.out + w, p.over[aoff := at + |p.out|], p.cache)
    ensures c + p.out + w == c + (p.out + w)
  {
    hide CompareUpto, AddUpto, PatchBytes, Denotes;
  }

  /** Stored fields that can be compared. */
  ghost predicate Storables(v: View, offs: seq<int>, ts: seq<Tree>) {
    DenotesAll(v, offs, ts) && forall i | 0 <= i < |ts| :: Proper(ts[i])
  }

  /** Stored fields, with the way they are stored. */
  ghost predicate StoredAs(v: View, offs: seq<int>, ts: seq<Tree>, ss: seq<Stored>) {
    Storables(v, offs, ts) && ss == StoredAll(v, offs, ts)
  }

  lemma StoredAsStorable(v: View, offs: seq<int>, ts: seq<Tree>, ss: seq<Stored>)
    requires StoredAs(v, offs, ts, ss)
    ensures Storables(v, offs, ts)
  {
  }

  lemma StoredAsAt(v: View, offs: seq<int>, ts: seq<Tree>, ss: seq<Stored>, i: nat)
    requires StoredAs(v, offs, ts, ss) && i < |ts|
    ensures |offs| == |ss| == |ts| && Denotes(v, offs[i], ts[i]) && Proper(ts[i]) && ss[i] == StoredOf(v, offs[i], ts[i])
  {
    StoredAt(v, offs, ts, i);
  }

  lemma StorableAt(v: View, offs: seq<int>, ts: seq<Tree>, i: nat)
    requires Storables(v, offs, ts) && i < |ts|
    ensures |offs| == |ts| && Denotes(v, offs[i], ts[i]) && Proper(ts[i])
  {
  }

  lemma StorableKids(v: View, off: int, n: Node, t: Tree)
    requires t.Obj? && n.NObj? && DenotesAll(v, n.Slots(), t.Kids()) && Proper(t)
    ensures Storables(v, n.voffs, t.vals)
  {
  }

  /** The values of an object, with the way they are stored. */
  lemma StoredKids(v: View, off: int, n: Node, t: Tree, s: Stored)
    requires t.Obj? && Denotes(v, off, t) && s == StoredOf(v, off, t) && Proper(t)
    requires NodeAt(v, off) == Some(n) && n.NObj?
    ensures s.SObj? && StoredAs(v, n.voffs, t.vals, s.vals)
  {
    StoredParts(v, off, t);
    hide Denotes, NodeAt, StoredOf, StoredAll;
  }

  lemma BlobsApartAt(f: Fields, i: nat, j: nat)
    requires FieldBlobsApart(f.names, f.tas, f.bnames, f.tbs) && i < |f.tas| && i < |f.names| && j < |f.tbs| && j < |f.bnames|
    requires f.names[i] == f.bnames[j]
    ensures BlobsApart(f.tas[i], f.tbs[j])
  {
    hide BlobsApart;
  }

  lemma BlobsApartParts(ta: Tree, tb: Tree)
    requires BlobsApart(ta, tb)
    ensures ta.Arr? && tb.Arr? ==> NoBlobs(ta) && NoBlobs(tb)
    ensures ta.Obj? && tb.Obj? ==> FieldBlobsApart(ta.names, ta.vals, tb.names, tb.vals)
  {
  }

  lemma ComparableKids(v: View, n: Node, t: Tree)
    requires t.Arr? && n.NArr? && DenotesAll(v, n.Slots(), t.Kids()) && Proper(t) && NoBlobs(t)
    ensures Comparables(v, n.offs, t.elems)
  {
  }

  /** nameInEntrySlice: binary search in the sorted names of the other object. */
  method NameInEntrySlice(entries: seq<Bytes>, name: Bytes) returns (r: int)
    requires Ascending(entries)
    ensures r == IndexOf(entries, name)
  {
    var i, j := 0, |entries|;
    while i < j
      invariant 0 <= i <= j <= |entries|
      invariant forall k | 0 <= k < i :: Less(entries[k], name)
      invariant forall k | j <= k < |entries| :: !Less(entries[k], name)
    {
      var h := (i + j) / 2;
      if Less(entries[h], name) {
        forall k | 0 <= k < h ensures Less(entries[k], name) { LessIsTransitive(entries[k], entries[h], name); }
        i := h + 1;
      } else {
        forall k | h <= k < |entries| ensures !Less(entries[k], name) { NotBelow(entries, h, k, name); }
        j := h;
      }
    }
    LessIsStrict(name, name);
    if i < |entries| && entries[i] == name {
      IndexOfAt(entries, i);
      return i;
    }
    forall k | i <= k < |entries| ensures entries[k] != name {
      if i < k {
        LessIsStrict(entries[i], entries[k]);
        LessIsStrict(entries[i], name);
      }
    }
    return -1;
  }

  lemma CompareOneMore(a: Bytes, f: Fields, i: nat, at: int, over: map<int, int>, cache: Cache, p: Progress)
    requires f.Valid() && i < |f.names| && DenotesAll(Snapshot(a), f.voffs, f.tas)
    requires p == CompareUpto(a, f, i, at, over, cache)
    ensures var j := IndexOf(f.bnames, f.names[i]);
            CompareUpto(a, f, i + 1, at, over, cache) ==
              if j < 0 then RemoveName(f, i, p)
              else KeepName(f, i, p, Diff(a, f.voffs[i], f.tas[i], f.tbs[j], f.sbs[j], true, at + |p.out|, p.over, p.cache))
  {
    hide CompareUpto, Denotes, Diff, RemoveName, KeepName;
    CompareStep(a, f, i, at, over, cache);
  }

  lemma Resumed(c: Bytes, earlier: Bytes, out: Bytes)
    requires earlier <= out
    ensures c + earlier + out[|earlier|..] == c + out
  {
  }

  lemma TwoAppended(c: Bytes, earlier: Bytes, x: Bytes, y: Bytes)
    ensures earlier <= earlier + x + y && c + x + y == c + (earlier + x + y)[|earlier|..]
  {
    assert (earlier + x + y)[|earlier|..] == x + y;
  }

  function NodeKind(n: Node): Byte {
    match n
    case NLeaf(s) => Tag(s)
    case NArr(_) => T_ARRAY
    case NObj(_, _, _, _) => T_OBJECT_FULL
  }

  lemma NodeKinds(n: Node, t: Tree)
    requires Matches(n, t)
    ensures NodeKind(n) == Kind(t)
    ensures n.NLeaf? ==> t == Leaf(n.s)
    ensures n.NArr? <==> t.Arr?
    ensures n.NObj? <==> t.Obj?
    ensures n.NObj? ==> n.names == t.names
    ensures n.NLeaf? || NodeKind(n) == T_ARRAY || NodeKind(n) == T_OBJECT_FULL
    ensures n.NLeaf? ==> NodeKind(n) != T_ARRAY && NodeKind(n) != T_OBJECT_FULL
    ensures n.NArr? ==> NodeKind(n) == T_ARRAY
    ensures n.NObj? ==> NodeKind(n) == T_OBJECT_FULL && T_OBJECT_FULL != T_ARRAY
  {
  }

  lemma SortedNames(t: Tree)
    requires t.Obj? && Proper(t)
    ensures Ascending(t.names) && |t.names| == |t.vals|
  {
  }

  lemma FieldsAre(n: Node, ta: Tree, tb: Tree, sb: Stored)
    requires Doc(sb) == tb && n.NObj? && ta.Obj? && tb.Obj?
    ensures FieldsOf(n, ta, tb, sb) == Fields(n.names, n.noffs, n.voffs, ta.vals, tb.names, tb.vals, sb.vals)
  {
  }

  lemma PatchBytesFrom(aoff: int, len: nat, changes: map<Bytes, Slot>, head: Bytes, names: seq<Bytes>,
                       noffs: seq<int>, voffs: seq<int>, c: Bytes)
    requires names == Sorted(changes.Keys) && |noffs| == |voffs| == |names|
    requires forall i | 0 <= i < |names| :: names[i] in changes && changes[names[i]] == Slot(noffs[i], voffs[i])
    requires head == [T_OBJECT_PATCH] + Be32(aoff) + PutVarint(len) + PutVarint(|changes|)
    ensures c + head + Words(noffs) + Words(voffs) == c + PatchBytes(aoff, len, changes)
  {
    hide Words, Be32, PutVarint, Sorted, Ascending;
    assert noffs == ChangeNames(changes, names) && voffs == ChangeValues(changes, names);
    var w, x := Words(noffs), Words(voffs);
    assert PatchBytes(aoff, len, changes) == head + w + x;
    assert c + head + w + x == c + (head + w + x);
  }

  /** Diff, one kind at a time. */
  lemma DiffByKind(a: Bytes, aoff: int, ta: Tree, tb: Tree, sb: Stored, embed: bool, at: int, over: map<int, int>, cache: Cache)
    requires Doc(sb) == tb && Proper(ta) && Proper(tb) && Denotes(Snapshot(a), aoff, ta) && !(ta.Obj? && tb.Obj?)
    ensures var d, n := Diff(a, aoff, ta, tb, sb, embed, at, over, cache), NodeAt(Snapshot(a), aoff).value;
            && (Kind(ta) != Kind(tb) ==> d == Replace(aoff, tb, at, embed, over, cache))
            && (Kind(ta) == Kind(tb) && ta.Leaf? ==> tb.Leaf? && d == DiffLeaf(aoff, ta.s, tb.s, at, over, cache))
            && (Kind(ta) == Kind(tb) && ta.Arr? ==>
                  tb.Arr? && sb.SArr? && n.NArr? && DenotesAll(Snapshot(a), n.offs, ta.elems)
                  && d == DiffArray(aoff, n.offs, StoredAll(Snapshot(a), n.offs, ta.elems), sb.elems, at, over, cache))
  {
    hide Replace, DiffLeaf, DiffArray, Proper, StoredAll, Docs;
    KidsDenoted(Snapshot(a), aoff, ta);
  }

  class DeltaWriter {
    var buffer: Bytes
    var patches: map<int, int>
    const a: Bytes
    const b: View
    const cache: EncodingCache
    const hcachea: HashCache
    const hcacheb: HashCache

    ghost predicate Valid()
      reads this, cache, hcachea, hcacheb
    {
      && cache.Valid() && hcachea.Valid() && hcacheb.Valid()
      && hcachea != hcacheb && hcachea.sum == hcacheb.sum && hcachea.content == Snapshot(a) && hcacheb.content == b
    }

    /** A delta starts with the place of its header. */
    constructor (a: Bytes, b: View, hash: Bytes -> nat, sum: Bytes -> nat)
      ensures Valid() && fresh(cache) && fresh(hcachea) && fresh(hcacheb) && this.a == a && this.b == b
      ensures buffer == Zeros(4) && patches == map[] && cache.model == EMPTY
    {
      this.a, this.b := a, b;
      buffer, patches := Zeros(4), map[];
      cache := new EncodingCache(hash);
      hcachea := new HashCache(Snapshot(a), sum);
      hcacheb := new HashCache(b, sum);
    }

    /** Where the next byte will stand once the delta is appended to the snapshot. */
    function Here(): int
      reads this
    {
      |a| + |buffer|
    }

    twostate predicate Wrote(r: Written, off: int)
      reads this, cache
    {
      off == r.off && buffer == old(buffer) + r.out && cache.model == r.cache
    }

    method PutWord(pos: nat, v: int)
      requires pos + 4 <= |buffer|
      modifies this`buffer
      ensures buffer == Patched(old(buffer), pos, v)
    {
      hide EncodingCache.Valid, HashCache.Valid;
      buffer := buffer[..pos] + Be32(v) + buffer[pos + 4..];
    }

    method WriteCachedString(s: Bytes, offset: int) returns (off: int)
      requires cache.Valid() && offset == Here()
      modifies this`buffer, cache
      ensures cache.Valid() && Wrote(CachedString(s, offset, old(cache.model)), off)
    {
      hide EncodingCache.Valid, HashCache.Valid;
      hide ScalarBytes;
      var existing := cache.CacheString(s, offset);
      if existing == offset {
        buffer := buffer + ScalarBytes(Str(s));
        return offset;
      }
      return existing;
    }

    method WriteCachedNumber(s: Bytes, offset: int) returns (off: int)
      requires cache.Valid() && offset == Here()
      modifies this`buffer, cache
      ensures cache.Valid() && Wrote(WriteNumber(s, offset, old(cache.model)), off)
    {
      hide EncodingCache.Valid, HashCache.Valid;
      hide ScalarBytes;
      var existing := cache.CacheNumber(s, offset);
      if existing == offset {
        buffer := buffer + ScalarBytes(Num(s));
        return offset;
      }
      return existing;
    }

    /** reserialize: copies the document at `off` of the new version. */
    method Reserialize(off: int, embed: bool, ghost t: Tree) returns (noff: int)
      requires cache.Valid() && Denotes(b, off, t) && Proper(t)
      modifies this`buffer, cache
      ensures cache.Valid() && Wrote(Copy(t, old(Here()), embed, old(cache.model)), noff)
      decreases t
    {
      hide EncodingCache.Valid, HashCache.Valid;
      hide Denotes, NodeAt, Proper, Copy;
      ProperKids(t);
      var n := ReadDenoted(b, off, t);
      match n {
        case NLeaf(s) => noff := ReserializeLeaf(s, embed);
        case NArr(offs) => noff := ReserializeArray(offs, embed, t.elems);
        case NObj(_, names, _, voffs) => noff := ReserializeObject(names, voffs, embed, t.vals);
      }
    }

    method ReserializeLeaf(s: Scalar, embed: bool) returns (noff: int)
      requires cache.Valid()
      modifies this`buffer, cache
      ensures cache.Valid() && Wrote(Copy(Leaf(s), old(Here()), embed, old(cache.model)), noff)
    {
      hide EncodingCache.Valid, HashCache.Valid;
      hide ScalarBytes, CachedString, WriteNumber;
      var at := Here();
      if s.Str? {
        noff := WriteCachedString(s.text, at);
      } else if s.Num? {
        noff := WriteCachedNumber(s.digits, at);
      } else if Embeds(s) && embed {
        noff := -(Tag(s) as int);
      } else {
        buffer := buffer + ScalarBytes(s);
        noff := at;
      }
    }

    /** Elements whose offsets go into the room that follows `front`. */
    method ReserializeElements(offs: seq<int>, start: nat, ghost ts: seq<Tree>, ghost front: Bytes, ghost back: Bytes)
      returns (ghost kids: WrittenAll)
      requires cache.Valid() && DenotesAll(b, offs, ts) && forall i | 0 <= i < |ts| :: Proper(ts[i])
      requires buffer == front + Zeros(4 * |ts|) + back && start == |front|
      modifies this`buffer, cache
      ensures cache.Valid()
      ensures kids == CopyUpto(ts, |ts|, old(Here()), old(cache.model)) && |kids.offs| == |ts|
      ensures buffer == front + Words(kids.offs) + back + kids.out && cache.model == kids.cache
      decreases ts, |ts|
    {
      hide EncodingCache.Valid, HashCache.Valid;
      hide Copy, CopyUpto, Words, Zeros, Patched, Proper, Denotes;
      var n, offsets, len := |offs|, start, |buffer|;
      kids := WrittenAll([], [], cache.model);
      CopyBegun(ts, |a| + len, cache.model, front, Zeros(4 * n), back);
      for i := 0 to n
        invariant cache.Valid() && cache.model == kids.cache
        invariant kids == CopyUpto(ts, i, |a| + len, old(cache.model)) && offsets == start + 4 * i
        invariant buffer == front + Words(kids.offs) + Zeros(4 * (n - i)) + (back + kids.out)
        invariant |buffer| == len + |kids.out|
      {
        ghost var before := buffer;
        ghost var last := Copy(ts[i], Here(), true, cache.model);
        var element := Reserialize(offs[i], true, ts[i]);
        CopyOneMore(ts, i, |a| + len, old(cache.model), kids, last);
        ElementFilled(before, buffer, front, kids, n - i, back, last);
        PutWord(offsets, element);
        offsets := offsets + 4;
        kids := WrittenAll(kids.offs + [last.off], kids.out + last.out, last.cache);
      }
      RoomUsedUp(front, kids, back);
    }

    method ReserializeArray(offs: seq<int>, embed: bool, ghost ts: seq<Tree>) returns (noff: int)
      requires cache.Valid() && DenotesAll(b, offs, ts) && forall i | 0 <= i < |ts| :: Proper(ts[i])
      modifies this`buffer, cache
      ensures cache.Valid() && Wrote(Copy(Arr(ts), old(Here()), embed, old(cache.model)), noff)
      decreases ts, |ts| + 1
    {
      hide EncodingCache.Valid, HashCache.Valid;
      hide Copy, CopyUpto, Words, Zeros, PutVarint, Proper, Denotes;
      noff := Here();
      buffer := buffer + [T_ARRAY] + PutVarint(|offs|);
      var offsets := |buffer|;
      ghost var front := buffer;
      buffer := buffer + Zeros(4 * |offs|);
      assert buffer == front + Zeros(4 * |offs|) + [];
      ghost var kids := ReserializeElements(offs, offsets, ts, front, []);
      ArrayCopied(ts, noff, embed, old(buffer), old(cache.model), kids);
    }

    /** The names of an object; the room for the values stands behind theirs. */
    method ReserializeNames(names: seq<Bytes>, start: nat, ghost front: Bytes) returns (ghost named: WrittenAll)
      requires cache.Valid() && start == |front| && buffer == front + Zeros(4 * |names|) + Zeros(4 * |names|)
      modifies this`buffer, cache
      ensures cache.Valid() && named == CachedNames(names, |names|, old(Here()), old(cache.model))
      ensures |named.offs| == |names| && cache.model == named.cache
      ensures buffer == front + Words(named.offs) + Zeros(4 * |names|) + named.out
    {
      hide EncodingCache.Valid, HashCache.Valid;
      hide CachedString, CachedNames, Words, Zeros, Patched;
      var n, keyOffsets, len := |names|, start, |buffer|;
      ghost var back := Zeros(4 * n);
      named := WrittenAll([], [], cache.model);
      NamesBegun(names, |a| + len, cache.model, front, back, back);
      for i := 0 to n
        invariant cache.Valid() && cache.model == named.cache
        invariant named == CachedNames(names, i, |a| + len, old(cache.model)) && keyOffsets == start + 4 * i
        invariant buffer == front + Words(named.offs) + Zeros(4 * (n - i)) + (back + named.out)
        invariant |buffer| == len + |named.out|
      {
        ghost var before := buffer;
        ghost var last := CachedString(names[i], Here(), cache.model);
        var offset := WriteCachedString(names[i], Here());
        NameOneMore(names, i, |a| + len, old(cache.model), named, last);
        ElementFilled(before, buffer, front, named, n - i, back, last.(off := last.off + 1));
        PutWord(keyOffsets, offset + 1);
        keyOffsets := keyOffsets + 4;
        named := WrittenAll(named.offs + [last.off + 1], named.out + last.out, last.cache);
      }
      NamesDone(front, Words(named.offs), back, named.out);
    }

    method ReserializeObject(names: seq<Bytes>, voffs: seq<int>, embed: bool, ghost ts: seq<Tree>) returns (noff: int)
      requires cache.Valid() && DenotesAll(b, voffs, ts) && |names| == |ts| && forall i | 0 <= i < |ts| :: Proper(ts[i])
      modifies this`buffer, cache
      ensures cache.Valid() && Wrote(Copy(Obj(names, ts), old(Here()), embed, old(cache.model)), noff)
      decreases ts, |ts| + 1
    {
      hide EncodingCache.Valid, HashCache.Valid;
      hide Copy, CopyUpto, CachedNames, Words, Zeros, PutVarint, Proper, Denotes;
      noff := Here();
      var n := |names|;
      buffer := buffer + [T_OBJECT_FULL] + PutVarint(n);
      ghost var front := buffer;
      var keyOffsets := |buffer|;
      buffer := buffer + Zeros(4 * n);
      var valueOffsets := |buffer|;
      buffer := buffer + Zeros(4 * n);
      ghost var named := ReserializeNames(names, keyOffsets, front);
      ghost var kids := ReserializeElements(voffs, valueOffsets, ts, front + Words(named.offs), named.out);
      ObjectCopied(names, ts, noff, embed, old(buffer), old(cache.model), named, kids);
    }

    // ---- The comparison ----

    twostate predicate Did(d: Diffed, off: int, changed: bool)
      reads this, cache
    {
      && off == d.off && changed == d.changed && buffer == old(buffer) + d.out
      && patches == d.over && cache.model == d.cache
    }

    method DiffScalar(aoff: int, sa: Scalar, sb: Scalar) returns (off: int, changed: bool)
      requires Valid()
      modifies this, cache
      ensures Valid() && Did(DiffLeaf(aoff, sa, sb, old(Here()), old(patches), old(cache.model)), off, changed)
    {
      hide EncodingCache.Valid, HashCache.Valid;
      hide ScalarBytes, CachedString;
      if sa == sb {
        return 0, false;
      }
      off := Here();
      if sb.Str? {
        off := WriteCachedString(sb.text, off);
      } else {
        buffer := buffer + ScalarBytes(sb);
      }
      patches := patches[aoff := off];
      changed := true;
    }

    method DiffReplaced(aoff: int, boff: int, embed: bool, ghost tb: Tree) returns (off: int, changed: bool)
      requires Valid() && Denotes(b, boff, tb) && Proper(tb)
      modifies this, cache
      ensures Valid() && Did(Replace(aoff, tb, old(Here()), embed, old(patches), old(cache.model)), off, changed)
    {
      hide EncodingCache.Valid, HashCache.Valid;
      hide Denotes, Proper, Copy;
      off := Reserialize(boff, embed, tb);
      if off >= 0 {
        patches := patches[aoff := off];
      }
      changed := true;
    }

    /** The values that the old array does not have, behind the room for the offsets. */
    method WriteNewElements(picks: seq<ArrayIndex>, ghost aoffs: seq<int>, ghost boffs: seq<int>, ghost tbs: seq<Tree>,
                            ghost sas: seq<Stored>, ghost sbs: seq<Stored>)
      returns (offs: seq<int>, ghost kids: WrittenAll)
      requires cache.Valid() && |aoffs| == |sas| && Comparables(b, boffs, tbs)
      requires |picks| == |sbs| == |boffs| && Docs(sbs) == tbs && PicksOK(picks, aoffs, boffs, sas, sbs)
      modifies this`buffer, cache
      ensures cache.Valid() && kids == PickUpto(aoffs, sas, sbs, |sbs|, old(Here()), old(cache.model))
      ensures offs == kids.offs && buffer == old(buffer) + kids.out && cache.model == kids.cache
    {
      hide EncodingCache.Valid, HashCache.Valid;
      hide Copy, PickUpto, Comparables, PicksOK, FirstEqual, Docs, Doc;
      ComparableSizes(b, boffs, tbs);
      offs := [];
      kids := WrittenAll([], [], cache.model);
      PickBegun(aoffs, sas, sbs, Here(), cache.model);
      for i := 0 to |picks|
        invariant cache.Valid() && cache.model == kids.cache && offs == kids.offs
        invariant kids == PickUpto(aoffs, sas, sbs, i, old(Here()), old(cache.model))
        invariant buffer == old(buffer) + kids.out
      {
        ghost var j := FirstEqual(sas, sbs[i]);
        DocsAt(sbs, i);
        PickAt(picks, aoffs, boffs, sas, sbs, i);
        ComparableAt(b, boffs, tbs, i);
        ghost var last := if j >= 0 then Written(aoffs[j], [], cache.model) else Copy(tbs[i], Here(), true, cache.model);
        var off := picks[i].offset;
        if picks[i].b {
          off := Reserialize(off, true, tbs[i]);
        }
        PickOneMore(aoffs, sas, sbs, i, old(Here()), old(cache.model), kids, last);
        offs := offs + [off];
        kids := WrittenAll(kids.offs + [last.off], kids.out + last.out, last.cache);
      }
    }

    /** The offsets, put into the room that follows `front`. */
    method FillRoom(offs: seq<int>, start: nat, ghost front: Bytes, ghost back: Bytes)
      requires start == |front| && buffer == front + Zeros(4 * |offs|) + back
      modifies this`buffer
      ensures buffer == front + Words(offs) + back
    {
      hide EncodingCache.Valid, HashCache.Valid;
      hide Words, Zeros, Patched;
      var poffsets := start;
      WordsNone();
      assert offs[..0] == [];
      assert buffer == front + Words(offs[..0]) + Zeros(4 * |offs|) + back;
      for i := 0 to |offs|
        invariant poffsets == start + 4 * i
        invariant buffer == front + Words(offs[..i]) + Zeros(4 * (|offs| - i)) + back
      {
        RoomNext(front, offs, i, back);
        PutWord(poffsets, offs[i]);
        poffsets := poffsets + 4;
      }
      RoomFull(front, offs, back);
    }

    method DiffArrays(aoff: int, aoffs: seq<int>, boffs: seq<int>, ghost tas: seq<Tree>, ghost tbs: seq<Tree>)
      returns (off: int, changed: bool)
      requires Valid() && Comparables(Snapshot(a), aoffs, tas) && Comparables(b, boffs, tbs)
      requires DenotesAll(Snapshot(a), aoffs, tas) && DenotesAll(b, boffs, tbs)
      modifies this, cache, hcachea, hcacheb
      ensures Valid()
      ensures var sas, sbs := StoredAll(Snapshot(a), aoffs, tas), StoredAll(b, boffs, tbs);
              Did(DiffArray(aoff, aoffs, sas, sbs, old(Here()), old(patches), old(cache.model)), off, changed)
    {
      hide EncodingCache.Valid, HashCache.Valid;
      hide Comparables, PicksOK, SameArray, PickUpto, DiffArray, Words, Zeros, PutVarint;
      hide StoredAll, DenotesAll, Docs;
      ghost var sas, sbs := StoredAll(Snapshot(a), aoffs, tas), StoredAll(b, boffs, tbs);
      StoredAllDocs(b, boffs, tbs);
      ComparableSizes(Snapshot(a), aoffs, tas);
      ComparableSizes(b, boffs, tbs);
      var picks, changes := ArrayDiff(hcachea, aoffs, hcacheb, boffs, tas, tbs);
      if !changes {
        DiffArraySame(aoff, aoffs, sas, sbs, Here(), patches, cache.model);
        assert buffer == old(buffer) + [];
        return 0, false;
      }
      off, changed := Here(), false;
      buffer := buffer + [T_ARRAY] + PutVarint(|picks|);
      var poffsets := |buffer|;
      ghost var front := buffer;
      buffer := buffer + Zeros(4 * |picks|);
      var offs, kids := WriteNewElements(picks, aoffs, boffs, tbs, sas, sbs);
      FillRoom(offs, poffsets, front, kids.out);
      ArrayDiffed(aoff, aoffs, sas, sbs, off, patches, old(buffer), old(cache.model), kids);
      patches := patches[aoff := off];
    }

    /** One name of the old object: compared with the new object's or removed. */
    method CompareName(i: nat, name: Bytes, noff: int, voffa: int, bnames: seq<Bytes>, bvoffs: seq<int>,
                       changes: map<Bytes, Slot>, ghost f: Fields, ghost p: Progress)
      returns (namesValues: map<Bytes, Slot>, ghost q: Progress)
      requires Valid() && f.Valid() && i < |f.names| == |f.noffs| == |f.voffs| == |f.tas| && |f.bnames| == |f.tbs| == |f.sbs|
      requires name == f.names[i] && noff == f.noffs[i] && voffa == f.voffs[i] && bnames == f.bnames && Ascending(bnames)
      requires Denotes(Snapshot(a), voffa, f.tas[i]) && Proper(f.tas[i])
      requires StoredAs(b, bvoffs, f.tbs, f.sbs) && FieldBlobsApart(f.names, f.tas, f.bnames, f.tbs)
      requires changes == p.changes && patches == p.over && cache.model == p.cache
      modifies this, cache, hcachea, hcacheb
      ensures Valid() && namesValues == q.changes && patches == q.over && cache.model == q.cache
      ensures p.out <= q.out && buffer == old(buffer) + q.out[|p.out|..]
      ensures var j := IndexOf(f.bnames, f.names[i]);
              q == if j < 0 then RemoveName(f, i, p)
                   else KeepName(f, i, p, Diff(a, voffa, f.tas[i], f.tbs[j], f.sbs[j], true, old(Here()), p.over, p.cache))
      decreases f.tas, |f.tas| + 1
    {
      hide EncodingCache.Valid, HashCache.Valid;
      hide Storables, StoredAs, Proper, Diff, Ascending, BlobsApart, FieldBlobsApart, Denotes;
      var j := NameInEntrySlice(bnames, name);
      if j < 0 {
        q := RemoveName(f, i, p);
        namesValues := changes[name := Slot(noff, REMOVED)];
        return;
      }
      StoredAsAt(b, bvoffs, f.tbs, f.sbs, j);
      BlobsApartAt(f, i, j);
      ghost var d := Diff(a, voffa, f.tas[i], f.tbs[j], f.sbs[j], true, Here(), patches, cache.model);
      var offset, changed := DiffImpl(voffa, bvoffs[j], true, f.tas[i], f.tbs[j], f.sbs[j]);
      namesValues := changes;
      if changed {
        namesValues := namesValues[name := Slot(noff, offset)];
        patches := patches - {voffa};
      }
      q := KeepName(f, i, p, d);
    }

    method CompareNames(names: seq<Bytes>, noffs: seq<int>, voffs: seq<int>, bnames: seq<Bytes>, bvoffs: seq<int>, ghost f: Fields)
      returns (namesValues: map<Bytes, Slot>, ghost p: Progress)
      requires Valid() && f.Valid() && names == f.names && noffs == f.noffs && voffs == f.voffs && bnames == f.bnames
      requires Storables(Snapshot(a), voffs, f.tas) && StoredAs(b, bvoffs, f.tbs, f.sbs)
      requires FieldBlobsApart(f.names, f.tas, f.bnames, f.tbs)
      requires DenotesAll(Snapshot(a), f.voffs, f.tas) && Ascending(bnames)
      modifies this, cache, hcachea, hcacheb
      ensures Valid() && p == CompareUpto(a, f, |f.names|, old(Here()), old(patches), old(cache.model))
      ensures namesValues == p.changes && buffer == old(buffer) + p.out && patches == p.over && cache.model == p.cache
      decreases f.tas, |f.tas| + 2
    {
      hide EncodingCache.Valid, HashCache.Valid;
      hide Storables, StoredAs, DenotesAll, Denotes, Proper, CompareUpto, Diff, Ascending, FieldBlobsApart, Valid, KeepName, RemoveName;
      FieldsSizes(f);
      namesValues, p := map[], Progress(map[], [], patches, cache.model);
      CompareBegun(a, f, Here(), patches, cache.model);
      for i := 0 to |names|
        invariant Valid() && p == CompareUpto(a, f, i, old(Here()), old(patches), old(cache.model))
        invariant namesValues == p.changes && buffer == old(buffer) + p.out && patches == p.over && cache.model == p.cache
      {
        CompareOneMore(a, f, i, old(Here()), old(patches), old(cache.model), p);
        StorableAt(Snapshot(a), voffs, f.tas, i);
        ghost var before := p;
        namesValues, p := CompareName(i, names[i], noffs[i], voffs[i], bnames, bvoffs, namesValues, f, p);
        Resumed(old(buffer), before.out, p.out);
      }
    }

    /** One name of the new object; the old one may lack it. */
    method AddOneName(i: nat, name: Bytes, names: seq<Bytes>, bvoff: int, changes: map<Bytes, Slot>, ghost f: Fields,
                      ghost p: Progress, ghost s: Written, ghost r: Written)
      returns (namesValues: map<Bytes, Slot>, ghost q: Progress)
      requires cache.Valid() && i < |f.bnames| == |f.tbs| && names == f.names && name == f.bnames[i] && Ascending(names)
      requires Denotes(b, bvoff, f.tbs[i]) && Proper(f.tbs[i])
      requires changes == p.changes && cache.model == p.cache
      requires s == CachedString(name, Here(), p.cache) && r == Copy(f.tbs[i], Here() + |s.out|, true, s.cache)
      modifies this`buffer, cache
      ensures cache.Valid() && namesValues == q.changes && cache.model == q.cache
      ensures p.out <= q.out && buffer == old(buffer) + q.out[|p.out|..]
      ensures q == if name in f.names then p
                   else Progress(p.changes[name := Slot(s.off + 1, r.off)], p.out + s.out + r.out, p.over, r.cache)
    {
      hide EncodingCache.Valid, HashCache.Valid;
      hide Copy, CachedString, Ascending, Denotes, Proper;
      namesValues, q := changes, p;
      var j := NameInEntrySlice(names, name);
      if j < 0 {
        var noff := WriteCachedString(name, Here());
        assert cache.model == s.cache && Here() == old(Here()) + |s.out|;
        var voff := Reserialize(bvoff, true, f.tbs[i]);
        assert cache.model == r.cache && buffer == old(buffer) + s.out + r.out;
        namesValues := namesValues[name := Slot(noff + 1, voff)];
        q := Progress(p.changes[name := Slot(s.off + 1, r.off)], p.out + s.out + r.out, p.over, r.cache);
        TwoAppended(old(buffer), p.out, s.out, r.out);
      }
    }

    method AddNames(names: seq<Bytes>, bnames: seq<Bytes>, bvoffs: seq<int>, changes: map<Bytes, Slot>, ghost f: Fields,
                    ghost p: Progress, ghost c: Bytes)
      returns (namesValues: map<Bytes, Slot>, ghost q: Progress)
      requires cache.Valid() && names == f.names && bnames == f.bnames && |f.bnames| == |f.tbs|
      requires Storables(b, bvoffs, f.tbs) && Ascending(names)
      requires changes == p.changes && buffer == c + p.out && cache.model == p.cache
      modifies this`buffer, cache
      ensures cache.Valid() && q == AddUpto(f, |f.bnames|, |a| + |c|, p)
      ensures namesValues == q.changes && buffer == c + q.out && cache.model == q.cache && q.over == p.over
    {
      hide EncodingCache.Valid, HashCache.Valid;
      hide Storables, AddUpto, Copy, CachedString, Ascending, Denotes, Proper;
      namesValues, q := changes, p;
      ghost var at := |a| + |c|;
      AddNone(f, at, p);
      for i := 0 to |bnames|
        invariant cache.Valid() && q == AddUpto(f, i, at, p)
        invariant namesValues == q.changes && buffer == c + q.out && cache.model == q.cache && q.over == p.over
      {
        ghost var s := CachedString(bnames[i], at + |q.out|, q.cache);
        ghost var r := Copy(f.tbs[i], at + |q.out| + |s.out|, true, s.cache);
        AddOneMore(f, i, at, p, q, s, r);
        StorableAt(b, bvoffs, f.tbs, i);
        ghost var before := q;
        assert Here() == at + |q.out|;
        namesValues, q := AddOneName(i, bnames[i], names, bvoffs[i], namesValues, f, q, s, r);
        Resumed(c, before.out, q.out);
      }
    }

    method WriteInt32s(values: seq<int>)
      modifies this`buffer
      ensures buffer == old(buffer) + Words(values)
    {
      hide EncodingCache.Valid, HashCache.Valid;
      hide Words, Be32;
      WordsNone();
      assert values[..0] == [];
      for i := 0 to |values|
        invariant buffer == old(buffer) + Words(values[..i])
      {
        WordsAppend(values[..i], values[i]);
        assert values[..i + 1] == values[..i] + [values[i]];
        buffer := buffer + Be32(values[i]);
      }
      assert values[..|values|] == values;
    }

    /** The override table: the offsets in order, then where they are sent. */
    method WriteOverrides() returns (offsets: seq<nat>)
      modifies this`buffer
      ensures offsets == SortedKeys(set k: nat | k in patches) && forall i | 0 <= i < |offsets| :: offsets[i] in patches
      ensures buffer == old(buffer) + PutVarint(|patches|) + Words(offsets) + Words(OverValues(patches, offsets))
    {
      hide EncodingCache.Valid, HashCache.Valid;
      hide Words, PutVarint, OverValues;
      buffer := buffer + PutVarint(|patches|);
      offsets := SortKeys(set k: nat | k in patches);
      assert forall i | 0 <= i < |offsets| :: offsets[i] in offsets;
      WriteInt32s(offsets);
      WriteInt32s(OverValues(patches, offsets));
    }

    method WritePatch(aoff: int, len: nat, namesValues: map<Bytes, Slot>)
      modifies this`buffer
      ensures buffer == old(buffer) + PatchBytes(aoff, len, namesValues)
    {
      hide EncodingCache.Valid, HashCache.Valid;
      hide Words, Be32, PutVarint, Sorted, Ascending, PatchBytes;
      var head := [T_OBJECT_PATCH] + Be32(aoff) + PutVarint(len) + PutVarint(|namesValues|);
      buffer := buffer + head;
      var sorted := SortNames(namesValues.Keys);
      var noffs := seq(|sorted|, i requires 0 <= i < |sorted| && sorted[i] in namesValues => namesValues[sorted[i]].name);
      var voffs := seq(|sorted|, i requires 0 <= i < |sorted| && sorted[i] in namesValues => namesValues[sorted[i]].value);
      WriteInt32s(noffs);
      WriteInt32s(voffs);
      PatchBytesFrom(aoff, len, namesValues, head, sorted, noffs, voffs, old(buffer));
    }

    /** An object patch is needed only when some name has changed. */
    method FinishObject(aoff: int, len: nat, namesValues: map<Bytes, Slot>) returns (off: int)
      modifies this
      ensures namesValues == map[] ==> off == 0 && buffer == old(buffer) && patches == old(patches)
      ensures namesValues != map[] ==> off == old(Here()) && patches == old(patches)[aoff := off]
      ensures namesValues != map[] ==> buffer == old(buffer) + PatchBytes(aoff, len, namesValues)
    {
      hide EncodingCache.Valid, HashCache.Valid;
      hide PatchBytes;
      if namesValues == map[] {
        return 0;
      }
      off := Here();
      WritePatch(aoff, len, namesValues);
      patches := patches[aoff := off];
    }

    method DiffObjects(aoff: int, na: Node, nb: Node, ghost f: Fields) returns (off: int, changed: bool)
      requires Valid() && na.NObj? && nb.NObj? && f.Valid()
      requires na.names == f.names && na.noffs == f.noffs && na.voffs == f.voffs && nb.names == f.bnames
      requires Storables(Snapshot(a), na.voffs, f.tas) && StoredAs(b, nb.voffs, f.tbs, f.sbs)
      requires FieldBlobsApart(f.names, f.tas, f.bnames, f.tbs)
      requires DenotesAll(Snapshot(a), f.voffs, f.tas) && Ascending(f.names) && Ascending(f.bnames)
      modifies this, cache, hcachea, hcacheb
      ensures Valid()
      ensures Did(DiffObject(a, aoff, f, old(Here()), old(patches), old(cache.model)), off, changed)
      decreases f.tas, |f.tas| + 3
    {
      hide EncodingCache.Valid, HashCache.Valid;
      hide Storables, StoredAs, DenotesAll, CompareUpto, AddUpto, Ascending, PatchBytes, DiffObject, Proper, Denotes, FieldBlobsApart;
      FieldsSizes(f);
      changed := false;
      var changes, p := CompareNames(na.names, na.noffs, na.voffs, nb.names, nb.voffs, f);
      StoredAsStorable(b, nb.voffs, f.tbs, f.sbs);
      var namesValues, q := AddNames(na.names, nb.names, nb.voffs, changes, f, p, old(buffer));
      assert patches == q.over && Here() == old(Here()) + |q.out|;
      off := FinishObject(aoff, |nb.names|, namesValues);
      ghost var d := DiffObject(a, aoff, f, old(Here()), old(patches), old(cache.model));
      ghost var w := PatchBytes(aoff, |f.bnames|, q.changes);
      ObjectDiffed(a, aoff, f, old(Here()), old(patches), old(cache.model), q, w, old(buffer));
      if q.changes == map[] {
        assert patches == d.over && buffer == old(buffer) + d.out;
      } else {
        assert patches == d.over && buffer == old(buffer) + d.out;
      }
    }

    /** diffImpl: compares what stands at `aoff` of the snapshot with what stands at
        `boff` of the new version. */
    method DiffImpl(aoff: int, boff: int, embed: bool, ghost ta: Tree, ghost tb: Tree, ghost sb: Stored)
      returns (off: int, changed: bool)
      requires Valid() && Denotes(Snapshot(a), aoff, ta) && Denotes(b, boff, tb) && Proper(ta) && Proper(tb)
      requires BlobsApart(ta, tb) && sb == StoredOf(b, boff, tb) && Doc(sb) == tb
      modifies this, cache, hcachea, hcacheb
      ensures Valid()
      ensures Did(Diff(a, aoff, ta, tb, sb, embed, old(Here()), old(patches), old(cache.model)), off, changed)
      decreases ta
    {
      hide EncodingCache.Valid, HashCache.Valid;
      hide Denotes, DenotesAll, NodeAt, Matches, Proper, BlobsApart, Storables, StoredAs, Comparables, Ascending;
      hide StoredOf, StoredAll, Doc, Docs;
      BlobsApartParts(ta, tb);
      hide FieldBlobsApart, NoBlobs;
      hide Diff, DiffObject, DiffArray, DiffLeaf, Replace, FieldsOf, Kind, NodeKind, Valid;
      var na := ReadDenoted(Snapshot(a), aoff, ta);
      var nb := ReadDenoted(b, boff, tb);
      StoredParts(b, boff, tb);
      NodeKinds(na, ta);
      NodeKinds(nb, tb);
      if na.NObj? && nb.NObj? {
        ObjectFields(a, aoff, ta, tb, sb);
        DiffIsDiffObject(a, aoff, ta, tb, sb, embed, Here(), patches, cache.model);
        StorableKids(Snapshot(a), aoff, na, ta);
        StoredKids(b, boff, nb, tb, sb);
        SortedNames(ta);
        SortedNames(tb);
        FieldsAre(na, ta, tb, sb);
        off, changed := DiffObjects(aoff, na, nb, FieldsOf(na, ta, tb, sb));
        return;
      }
      DiffByKind(a, aoff, ta, tb, sb, embed, Here(), patches, cache.model);
      if NodeKind(na) != NodeKind(nb) {
        off, changed := DiffReplaced(aoff, boff, embed, tb);
      } else if na.NLeaf? {
        off, changed := DiffScalar(aoff, na.s, nb.s);
      } else {
        ComparableKids(Snapshot(a), na, ta);
        ComparableKids(b, nb, tb);
        off, changed := DiffArrays(aoff, na.offs, nb.offs, ta.elems, tb.elems);
      }
    }
  }

  lemma HeaderFilled(out: Bytes, v: int)
    ensures Patched(Zeros(4) + out, 0, v) == Be32(v) + out
  {
    hide Be32;
    assert (Zeros(4) + out)[4..] == out;
  }

  lemma RootFacts(a: Bytes, ta: Tree, tb: Tree, sb: Stored)
    requires Doc(sb) == tb && Comparable(a, ta, tb)
    ensures Proper(ta) && Proper(tb) && Denotes(Snapshot(a), 0, ta)
    ensures RootDiff(a, ta, tb, sb) == Diff(a, 0, ta, tb, sb, false, |a| + 4, map[], EMPTY)
    ensures forall k | k in RootDiff(a, ta, tb, sb).over :: k >= 0
  {
    hide Denotes, Proper, Apart, Inside;
    OverridesAreIsolated(a, ta, tb, sb);
    assert forall k | k in RootDiff(a, ta, tb, sb).over :: IsContainer(a, k);
  }

  lemma FileParts(a: Bytes, ta: Tree, tb: Tree, sb: Stored, d: Diffed, keys: seq<nat>)
    requires Doc(sb) == tb && Proper(ta) && Proper(tb) && Denotes(Snapshot(a), 0, ta)
    requires d == RootDiff(a, ta, tb, sb) && keys == SortedKeys(set k: nat | k in d.over)
    ensures forall i | 0 <= i < |keys| :: keys[i] in d.over
    ensures Be32(4 + |d.out|) + d.out + PutVarint(|d.over|) + Words(keys) + Words(OverValues(d.over, keys))
         == DeltaFile(a, ta, tb, sb)
  {
    hide Be32, PutVarint, Words, Denotes, Proper, RootDiff, TableBytes, OverValues, SortedKeys, Diff;
    assert keys == TableKeys(d.over);
    TableBytesAre(d.over);
    var h, n, w, x := Be32(4 + |d.out|), PutVarint(|d.over|), Words(keys), Words(OverValues(d.over, keys));
    assert h + d.out + n + w + x == h + d.out + (n + w + x);
  }

  /** diff: the delta file that turns the snapshot `a` into the document at the root
      of `b`, and whether it overrides nothing. Any two hash functions will do. */
  method WriteDelta(a: Bytes, b: View, hash: Bytes -> nat, sum: Bytes -> nat, ghost ta: Tree, ghost tb: Tree)
    returns (delta: Bytes, empty: bool)
    requires Comparable(a, ta, tb) && Denotes(b, 0, tb) && BlobsApart(ta, tb)
    ensures Doc(StoredOf(b, 0, tb)) == tb
    ensures Proper(ta) && Proper(tb) && Denotes(Snapshot(a), 0, ta) && delta == DeltaFile(a, ta, tb, StoredOf(b, 0, tb))
    ensures empty <==> RootDiff(a, ta, tb, StoredOf(b, 0, tb)).over == map[]
  {
    hide *;
    StoredIsDoc(b, 0, tb);
    ghost var sb := StoredOf(b, 0, tb);
    RootFacts(a, ta, tb, sb);
    ghost var d := RootDiff(a, ta, tb, sb);
    ghost var offsets := SortedKeys(set k: nat | k in d.over);
    FileParts(a, ta, tb, sb, d, offsets);
    NoKeys(d.over, offsets);
    delta, empty := WriteFile(a, b, hash, sum, ta, tb, sb, d);
  }

  /** The header is filled in when the length of the delta is known. */
  method WriteFile(a: Bytes, b: View, hash: Bytes -> nat, sum: Bytes -> nat, ghost ta: Tree, ghost tb: Tree, ghost sb: Stored,
                   ghost d: Diffed)
    returns (delta: Bytes, empty: bool)
    requires Denotes(Snapshot(a), 0, ta) && Denotes(b, 0, tb) && Proper(ta) && Proper(tb) && BlobsApart(ta, tb)
    requires sb == StoredOf(b, 0, tb) && Doc(sb) == tb && d == Diff(a, 0, ta, tb, sb, false, |a| + 4, map[], EMPTY)
    ensures var offsets := SortedKeys(set k: nat | k in d.over);
            && (empty <==> offsets == []) && (forall i | 0 <= i < |offsets| :: offsets[i] in d.over)
            && delta == Be32(4 + |d.out|) + d.out + PutVarint(|d.over|) + Words(offsets) + Words(OverValues(d.over, offsets))
  {
    hide Denotes, Proper, BlobsApart, Diff, StoredOf, Doc, EncodingCache.Valid, HashCache.Valid, DeltaWriter.Valid;
    hide Zeros, Patched, Be32, PutVarint, Words, SortedKeys, OverValues;
    var writer := new DeltaWriter(a, b, hash, sum);
    var off, changed := writer.DiffImpl(0, 0, false, ta, tb, sb);
    HeaderFilled(d.out, 4 + |d.out|);
    writer.PutWord(0, |writer.buffer|);
    var offsets := writer.WriteOverrides();
    return writer.buffer, |offsets| == 0;
  }

  lemma NoKeys(over: map<int, int>, keys: seq<nat>)
    requires keys == SortedKeys(set k: nat | k in over) && forall k | k in over :: k >= 0
    ensures keys == [] <==> over == map[]
  {
    if keys == [] {
      assert forall k | k in over :: k in keys;
    }
  }
}
