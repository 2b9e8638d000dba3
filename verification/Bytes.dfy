/** Bytes, big-endian words and variable-length integers: the alphabet of the
    snapshot, delta and executable formats. Reading past the end gives None. */
module ByteCodec {

  datatype Option<+T> = None | Some(value: T)

  type Byte = x: int | 0 <= x < 256
  type Bytes = seq<Byte>

  const TWO_31 := 0x8000_0000
  const TWO_32 := 0x1_0000_0000
  const TWO_63 := 0x8000_0000_0000_0000
  const TWO_64 := 0x1_0000_0000_0000_0000

  predicate IsInt32(v: int) { -TWO_31 <= v < TWO_31 }

  predicate AllInt32(vs: seq<int>) { forall i | 0 <= i < |vs| :: IsInt32(vs[i]) }

  predicate IsInt64(v: int) { -TWO_63 <= v < TWO_63 }

  /** `w` stands in `c` at offset `off`. */
  ghost predicate At(c: Bytes, off: int, w: Bytes) {
    0 <= off && off + |w| <= |c| && forall i | 0 <= i < |w| :: w[i] == c[off + i]
  }

  lemma AtSplit(c: Bytes, off: int, v: Bytes, w: Bytes)
    requires At(c, off, v + w)
    ensures At(c, off, v) && At(c, off + |v|, w)
  {
    var vw := v + w;
    forall i | 0 <= i < |v| ensures v[i] == c[off + i] { assert v[i] == vw[i]; }
    forall i | 0 <= i < |w| ensures w[i] == c[off + |v| + i] { assert w[i] == vw[|v| + i]; }
  }

  lemma AtParts(c: Bytes, off: int, all: Bytes, v: Bytes, w: Bytes, x: Bytes, y: Bytes)
    requires At(c, off, all) && all == v + w + x + y
    ensures At(c, off, v) && At(c, off + |v|, w) && At(c, off + |v| + |w|, x) && At(c, off + |v| + |w| + |x|, y)
  {
    AtSplit(c, off, v + w + x, y);
    AtSplit(c, off, v + w, x);
    AtSplit(c, off, v, w);
  }

  lemma AtAppended(c: Bytes, w: Bytes, d: Bytes)
    requires c + w <= d
    ensures At(d, |c|, w)
  {
    forall i | 0 <= i < |w| ensures w[i] == d[|c| + i] { assert (c + w)[|c| + i] == w[i]; }
  }

  lemma AtSlice(c: Bytes, off: int, w: Bytes)
    requires At(c, off, w)
    ensures c[off..off + |w|] == w
  {
  }

  // ---- 32-bit big-endian words ----

  /** PutUint32(uint32(v)): the low 32 bits of v, most significant byte first. */
  function Be32(v: int): (r: Bytes)
    ensures |r| == 4
  {
    var u := v % TWO_32;
    [u / 0x100_0000, u / 0x1_0000 % 0x100, u / 0x100 % 0x100, u % 0x100]
  }

  function U32(c: Bytes, off: int): (r: int)
    requires 0 <= off && off + 4 <= |c|
    ensures 0 <= r < TWO_32
  {
    c[off] as int * 0x100_0000 + c[off + 1] as int * 0x1_0000 + c[off + 2] as int * 0x100 + c[off + 3] as int
  }

  /** int32(Uint32(...)): the two's complement reading of a word. */
  function I32(c: Bytes, off: int): (r: int)
    requires 0 <= off && off + 4 <= |c|
    ensures IsInt32(r)
  {
    var u := U32(c, off);
    if u >= TWO_31 then u - TWO_32 else u
  }

  lemma Be32Value(v: int)
    ensures var w := Be32(v);
            w[0] as int * 0x100_0000 + w[1] as int * 0x1_0000 + w[2] as int * 0x100 + w[3] as int == v % TWO_32
  {
    var u := v % TWO_32;
    var hi, lo := u / 0x1_0000, u % 0x1_0000;
    assert u / 0x100_0000 == hi / 0x100 && u / 0x1_0000 % 0x100 == hi % 0x100;
    assert u / 0x100 % 0x100 == lo / 0x100 && u % 0x100 == lo % 0x100;
  }

  lemma Be32ReadBack(c: Bytes, off: int, v: int)
    requires At(c, off, Be32(v))
    ensures U32(c, off) == v % TWO_32
    ensures IsInt32(v) ==> I32(c, off) == v
  {
    Be32Value(v);
    hide Be32;
    var w := Be32(v);
    assert c[off] == w[0] && c[off + 1] == w[1] && c[off + 2] == w[2] && c[off + 3] == w[3];
  }

  /** A table of words, as written one after the other. */
  function Words(vs: seq<int>): (r: Bytes)
    ensures |r| == 4 * |vs|
  {
    seq(4 * |vs|, i requires 0 <= i < 4 * |vs| => Be32(vs[i / 4])[i % 4])
  }

  function WordsAt(c: Bytes, off: int, n: int): (r: Option<seq<int>>)
    ensures r.Some? ==> |r.value| == n
  {
    if off < 0 || n < 0 || off + 4 * n > |c| then None
    else Some(seq(n, i requires 0 <= i < n => I32(c, off + 4 * i)))
  }

  /** One word of a table. */
  lemma WordOf(c: Bytes, off: int, n: int, i: int)
    requires WordsAt(c, off, n).Some? && 0 <= i < n
    ensures 0 <= off + 4 * i && off + 4 * i + 4 <= |c| && I32(c, off + 4 * i) == WordsAt(c, off, n).value[i]
  {
  }

  lemma WordsAppend(vs: seq<int>, v: int)
    ensures Words(vs + [v]) == Words(vs) + Be32(v)
  {
    var n := 4 * |vs|;
    forall i | 0 <= i < n + 4 ensures Words(vs + [v])[i] == (Words(vs) + Be32(v))[i] {
      if i >= n {
        assert i / 4 == |vs| && i % 4 == i - n;
      }
    }
  }

  lemma WordsReadBack(c: Bytes, off: int, vs: seq<int>)
    requires At(c, off, Words(vs)) && AllInt32(vs)
    ensures WordsAt(c, off, |vs|) == Some(vs)
  {
    hide Be32, I32, U32;
    var w := Words(vs);
    var r := WordsAt(c, off, |vs|).value;
    forall i | 0 <= i < |vs| ensures r[i] == vs[i] {
      var k := 4 * i;
      assert w[k] == Be32(vs[i])[0] && w[k + 1] == Be32(vs[i])[1] && w[k + 2] == Be32(vs[i])[2] && w[k + 3] == Be32(vs[i])[3];
      Be32ReadBack(c, off + k, vs[i]);
    }
    assert r == vs;
  }

  lemma WordsExtends(c: Bytes, d: Bytes, off: int, n: int)
    requires c <= d && WordsAt(c, off, n).Some?
    ensures WordsAt(d, off, n) == WordsAt(c, off, n)
  {
    var x, y := WordsAt(c, off, n).value, WordsAt(d, off, n).value;
    forall i | 0 <= i < n ensures x[i] == y[i] {
      var k := off + 4 * i;
      assert c[k] == d[k] && c[k + 1] == d[k + 1] && c[k + 2] == d[k + 2] && c[k + 3] == d[k + 3];
    }
    assert x == y;
  }

  // ---- Rooms for words that are filled in later ----

  /** Room for offsets, not yet filled in. */
  function Zeros(n: nat): (r: Bytes)
    ensures |r| == n
  {
    seq(n, i => 0)
  }

  /** PutUint32 into the buffer at `pos`. */
  function Patched(buffer: Bytes, pos: nat, v: int): (r: Bytes)
    requires pos + 4 <= |buffer|
    ensures |r| == |buffer|
  {
    buffer[..pos] + Be32(v) + buffer[pos + 4..]
  }

  /** Filling in the next offset of a table that stands between `front` and `back`. */
  lemma PatchNext(front: Bytes, offs: seq<int>, room: nat, back: Bytes, v: int)
    requires room >= 1
    ensures Patched(front + Words(offs) + Zeros(4 * room) + back, |front| + 4 * |offs|, v)
         == front + Words(offs + [v]) + Zeros(4 * (room - 1)) + back
  {
    WordsAppend(offs, v);
    hide Words, Be32;
    var w := Words(offs);
    assert Zeros(4 * room) == Zeros(4) + Zeros(4 * (room - 1));
    var buffer := front + w + Zeros(4 * room) + back;
    var pos := |front| + 4 * |offs|;
    assert buffer[..pos] == front + w;
    assert buffer[pos + 4..] == Zeros(4 * (room - 1)) + back;
  }

  lemma WordsNone()
    ensures Words([]) == []
  {
  }

  lemma RoomNext(front: Bytes, offs: seq<int>, i: nat, back: Bytes)
    requires i < |offs|
    ensures var buffer := front + Words(offs[..i]) + Zeros(4 * (|offs| - i)) + back;
            && |front| + 4 * i + 4 <= |buffer|
            && Patched(buffer, |front| + 4 * i, offs[i])
            == front + Words(offs[..i + 1]) + Zeros(4 * (|offs| - i - 1)) + back
  {
    hide Words, Zeros, Patched;
    PatchNext(front, offs[..i], |offs| - i, back, offs[i]);
    assert offs[..i] + [offs[i]] == offs[..i + 1];
  }

  lemma RoomFull(front: Bytes, offs: seq<int>, back: Bytes)
    ensures front + Words(offs[..|offs|]) + Zeros(0) + back == front + Words(offs) + back
  {
    assert offs[..|offs|] == offs;
    hide Words;
  }

  // ---- Variable-length integers, seven bits a byte, low bits first ----

  function PutUvarint(u: nat): (r: Bytes)
    ensures |r| >= 1
  {
    if u < 0x80 then [u] else [u % 0x80 + 0x80] + PutUvarint(u / 0x80)
  }

  /** The i-th byte of a number stands at `off`; a tenth byte above 1, or an
      eleventh byte, overflows 64 bits. */
  function UvarintAt(c: Bytes, off: int, i: nat): (r: Option<(nat, int)>)
    ensures r.Some? ==> 0 <= off < r.value.1 <= |c|
    decreases |c| - off
  {
    if off < 0 || off >= |c| then None
    else if c[off] < 0x80 then
      if i > 9 || (i == 9 && c[off] > 1) then None else Some((c[off] as int, off + 1))
    else
      var rest := UvarintAt(c, off + 1, i + 1);
      if rest.None? then None else Some((c[off] as int - 0x80 + 0x80 * rest.value.0, rest.value.1))
  }

  /** What still fits into the 64 bits before the i-th byte. */
  function Room(i: nat): nat
    requires i <= 9
    decreases 9 - i
  {
    if i == 9 then 2 else 0x80 * Room(i + 1)
  }

  lemma RoomAtStart()
    ensures Room(0) == TWO_64
  {
    assert Room(5) == 0x80 * (0x80 * (0x80 * (0x80 * Room(9))));
    assert Room(1) == 0x80 * (0x80 * (0x80 * (0x80 * Room(5))));
  }

  lemma {:induction false} UvarintReadBack(c: Bytes, off: int, u: nat, i: nat)
    requires i <= 9 && u < Room(i)
    requires At(c, off, PutUvarint(u))
    ensures UvarintAt(c, off, i) == Some((u, off + |PutUvarint(u)|))
    decreases u
  {
    var w := PutUvarint(u);
    assert c[off] == w[0];
    if u >= 0x80 {
      AtSplit(c, off, [u % 0x80 + 0x80], PutUvarint(u / 0x80));
      UvarintReadBack(c, off + 1, u / 0x80, i + 1);
    }
  }

  lemma {:induction false} UvarintExtends(c: Bytes, d: Bytes, off: int, i: nat)
    requires c <= d && UvarintAt(c, off, i).Some?
    ensures UvarintAt(d, off, i) == UvarintAt(c, off, i)
    decreases |c| - off
  {
    assert c[off] == d[off];
    if c[off] >= 0x80 {
      UvarintExtends(c, d, off + 1, i + 1);
    }
  }

  function ZigZag(v: int): nat { if v >= 0 then 2 * v else -2 * v - 1 }

  function UnZigZag(u: nat): int { if u % 2 == 0 then u / 2 else -(u / 2) - 1 }

  function PutVarint(v: int): (r: Bytes)
    ensures |r| >= 1
  {
    PutUvarint(ZigZag(v))
  }

  function VarintAt(c: Bytes, off: int): (r: Option<(int, int)>)
    ensures r.Some? ==> 0 <= off < r.value.1 <= |c|
  {
    var u := UvarintAt(c, off, 0);
    if u.None? then None else Some((UnZigZag(u.value.0), u.value.1))
  }

  /** Every 64-bit integer survives its variable-length encoding. */
  lemma VarintReadBack(c: Bytes, off: int, v: int)
    requires IsInt64(v) && At(c, off, PutVarint(v))
    ensures VarintAt(c, off) == Some((v, off + |PutVarint(v)|))
  {
    RoomAtStart();
    UvarintReadBack(c, off, ZigZag(v), 0);
  }

  lemma VarintExtends(c: Bytes, d: Bytes, off: int)
    requires c <= d && VarintAt(c, off).Some?
    ensures VarintAt(d, off) == VarintAt(c, off)
  {
    UvarintExtends(c, d, off, 0);
  }

  // ---- Length-prefixed strings ----

  function PutString(s: Bytes): (r: Bytes)
    ensures |r| > |s|
  {
    PutVarint(|s|) + s
  }

  function StringAt(c: Bytes, off: int): Option<Bytes> {
    var n := VarintAt(c, off);
    if n.None? || n.value.0 < 0 || n.value.1 + n.value.0 > |c| then None
    else Some(c[n.value.1..n.value.1 + n.value.0])
  }

  lemma StringReadBack(c: Bytes, off: int, s: Bytes)
    requires |s| < TWO_63 && At(c, off, PutString(s))
    ensures StringAt(c, off) == Some(s)
  {
    AtSplit(c, off, PutVarint(|s|), s);
    VarintReadBack(c, off, |s|);
    AtSlice(c, off + |PutVarint(|s|)|, s);
  }

  lemma StringExtends(c: Bytes, d: Bytes, off: int)
    requires c <= d && StringAt(c, off).Some?
    ensures StringAt(d, off) == StringAt(c, off)
  {
    VarintExtends(c, d, off);
    var n := VarintAt(c, off).value;
    assert d[..|c|] == c;
    assert d[n.1..n.1 + n.0] == d[..|c|][n.1..n.1 + n.0];
  }

  /** What has been read so far, `x`, with the rest, read with this weight. */
  function Weighed(x: int, weight: int, rest: Option<(nat, int)>): Option<(int, int)> {
    if rest.None? then None else Some((x + weight * rest.value.0, rest.value.1))
  }

  lemma WeighedStep(c: Bytes, at: int, i: nat, x: int, weight: int)
    requires 0 <= at < |c|
    ensures c[at] < 0x80 && (i > 9 || (i == 9 && c[at] > 1)) ==> UvarintAt(c, at, i).None?
    ensures c[at] < 0x80 && !(i > 9 || (i == 9 && c[at] > 1)) ==> UvarintAt(c, at, i) == Some((c[at] as int, at + 1))
    ensures c[at] >= 0x80 ==>
              Weighed(x, weight, UvarintAt(c, at, i))
              == Weighed(x + weight * (c[at] as int - 0x80), weight * 0x80, UvarintAt(c, at + 1, i + 1))
  {
    if c[at] >= 0x80 {
      var b, rest := c[at] as int - 0x80, UvarintAt(c, at + 1, i + 1);
      if rest.Some? {
        Distribute(weight, b, rest.value.0);
      }
    }
  }

  lemma Distribute(w: int, b: int, r: int)
    ensures w * (b + 0x80 * r) == w * b + w * 0x80 * r
  {
  }

  /** ReadUvarint: the loop that accumulates seven bits a byte. */
  method ReadUvarint(c: Bytes, off: nat) returns (r: Option<(nat, int)>)
    ensures r == UvarintAt(c, off, 0)
  {
    hide UvarintAt, Weighed;
    var x, weight, i, at := 0, 1, 0, off;
    WeighedOnce(UvarintAt(c, off, 0));
    while true
      invariant off <= at && Weighed(x, weight, UvarintAt(c, at, i)) == Weighed(0, 1, UvarintAt(c, off, 0))
      decreases |c| - at
    {
      WeighedAll(x, weight, UvarintAt(c, at, i));
      if at >= |c| {
        NothingThere(c, at, i);
        return None;
      }
      WeighedStep(c, at, i, x, weight);
      var b := c[at] as int;
      if b < 0x80 {
        if i > 9 || (i == 9 && b > 1) {
          return None;
        }
        return Some((x + weight * b, at + 1));
      }
      x := x + weight * (b - 0x80);
      weight := weight * 0x80;
      i := i + 1;
      at := at + 1;
    }
  }

  lemma WeighedOnce(rest: Option<(nat, int)>)
    ensures Weighed(0, 1, rest).None? <==> rest.None?
    ensures rest.Some? ==> Weighed(0, 1, rest) == Some((rest.value.0 as int, rest.value.1))
  {
  }

  lemma WeighedAll(x: int, weight: int, rest: Option<(nat, int)>)
    ensures Weighed(x, weight, rest).None? <==> rest.None?
    ensures rest.Some? ==> Weighed(x, weight, rest) == Some((x + weight * rest.value.0, rest.value.1))
  {
  }

  lemma NothingThere(c: Bytes, at: int, i: nat)
    requires at >= |c|
    ensures UvarintAt(c, at, i).None?
  {
  }
}
