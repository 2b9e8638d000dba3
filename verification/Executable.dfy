/** The executable's function table: an offset for each function, and for a function
    its index, return local, parameters and blocks. */
module Executables {
  import opened ByteCodec
  import opened Ir
  import opened Bytecode

  const TYPE_BUILTIN := 0
  const TYPE_SPECIALIZED := 1
  const TYPE_FUNCTION := 2
  const TYPE_REGO_COMPILE := 3

  // ---- The getters of a function ----

  ghost predicate BuiltinAt(c: Bytes, at: int) {
    0 <= at && at + 8 <= |c| && U32(c, at + 4) != TYPE_FUNCTION
  }

  ghost predicate FunctionAt(c: Bytes, at: int, i: nat, params: seq<int>, ret: int, blocks: seq<Block<nat>>) {
    && 0 <= at && at + 36 <= |c| && U32(c, at + 4) == TYPE_FUNCTION && U32(c, at + 8) == i && U32(c, at + 12) == ret
    && U32(c, at + 32) == |params| && UWordsAt(c, at + 36, |params|) == Some(params)
    && At(c, at + U32(c, at + 28), EncodeBlocks(blocks))
  }

  ghost predicate FuncAt(c: Bytes, at: int, f: Func<nat>, i: nat) {
    match f
    case Builtin(_) => BuiltinAt(c, at)
    case Func(_, params, ret, blocks) => FunctionAt(c, at, i, params, ret, blocks)
  }

  function FuncOffset(c: Bytes, i: nat): (r: int)
    requires 8 + 4 * i <= |c|
  {
    U32(c, 4 + 4 * i)
  }

  /** Every function of the program stands where the table says. */
  ghost predicate FuncsAt(c: Bytes, funcs: seq<Func<nat>>) {
    4 + 4 * |funcs| <= |c| && forall i | 0 <= i < |funcs| :: FuncAt(c, FuncOffset(c, i), funcs[i], i)
  }

  predicate FuncFits(f: Func<nat>) {
    f.Func? ==> AreWords(f.params) && 0 <= f.ret < TWO_32 && BlocksFit(f.blocks)
  }

  // ---- Tables of items with an offset each ----

  function Joined(items: seq<Bytes>, n: nat): Bytes
    requires n <= |items|
  {
    if n == 0 then [] else Joined(items, n - 1) + items[n - 1]
  }

  function ItemOffsets(items: seq<Bytes>, start: nat): (r: seq<int>)
    ensures |r| == |items|
  {
    seq(|items|, i requires 0 <= i < |items| => start + |Joined(items, i)|)
  }

  /** The number of items, their offsets, the items. */
  function Table(items: seq<Bytes>): Bytes {
    Be32(|items|) + Words(ItemOffsets(items, 4 + 4 * |items|)) + Joined(items, |items|)
  }

  lemma {:induction false} ItemStands(c: Bytes, at: int, items: seq<Bytes>, n: nat, k: nat)
    requires k < n <= |items| && At(c, at, Joined(items, n))
    ensures At(c, at + |Joined(items, k)|, items[k])
    decreases n
  {
    hide At;
    AtSplit(c, at, Joined(items, n - 1), items[n - 1]);
    if k < n - 1 {
      ItemStands(c, at, items, n - 1, k);
    }
  }

  lemma {:induction false} JoinedGrows(items: seq<Bytes>, i: nat, n: nat)
    requires i <= n <= |items|
    ensures |Joined(items, i)| <= |Joined(items, n)|
  {
    if i < n {
      JoinedGrows(items, i, n - 1);
    }
  }

  lemma TableIs(items: seq<Bytes>)
    ensures Table(items) == Be32(|items|) + Words(ItemOffsets(items, 4 + 4 * |items|)) + Joined(items, |items|)
    ensures |Table(items)| == 4 + 4 * |items| + |Joined(items, |items|)|
  {
    hide Joined, ItemOffsets, Words;
  }

  /** A table inside `c` finds each of its items. */
  lemma TableReadsBack(c: Bytes, at: int, items: seq<Bytes>)
    requires At(c, at, Table(items)) && |Table(items)| < TWO_32
    ensures 0 <= at && at + |Table(items)| <= |c| && U32(c, at) == |items|
    ensures |Table(items)| >= 4 + 4 * |items|
    ensures forall i | 0 <= i < |items| :: At(c, at + U32(c, at + 4 + 4 * i), items[i])
  {
    hide At, Joined, Words, Be32, ItemOffsets, UWordsAt, Table;
    var n := |items|;
    var offsets, body := ItemOffsets(items, 4 + 4 * n), Joined(items, n);
    TableIs(items);
    AtBounds(c, at, Table(items));
    AtSplit(c, at, Be32(n) + Words(offsets), body);
    AtSplit(c, at, Be32(n), Words(offsets));
    WordReadBack(c, at, n);
    OffsetsFit(items);
    UWordsReadBack(c, at + 4, offsets);
    forall i | 0 <= i < n ensures At(c, at + U32(c, at + 4 + 4 * i), items[i]) {
      ItemOffsetIs(c, at, items, i);
      ItemStands(c, at + 4 + 4 * n, items, n, i);
    }
  }

  lemma OffsetsFit(items: seq<Bytes>)
    requires |Table(items)| < TWO_32
    ensures AreWords(ItemOffsets(items, 4 + 4 * |items|))
  {
    hide Joined, Words, Be32;
    forall i | 0 <= i < |items| ensures |Joined(items, i)| <= |Joined(items, |items|)| {
      JoinedGrows(items, i, |items|);
    }
  }

  lemma ItemOffsetIs(c: Bytes, at: int, items: seq<Bytes>, i: nat)
    requires i < |items| && 0 <= at && at + 4 + 4 * |items| <= |c|
    requires UWordsAt(c, at + 4, |items|) == Some(ItemOffsets(items, 4 + 4 * |items|))
    ensures U32(c, at + 4 + 4 * i) == 4 + 4 * |items| + |Joined(items, i)|
  {
    hide Joined;
    assert UWordsAt(c, at + 4, |items|).value[i] == U32(c, at + 4 + 4 * i);
  }

  // ---- Encoded functions ----

  function StringBytes(s: Bytes): Bytes { Be32(|s|) + s }

  function StringItems(ss: seq<Bytes>): (r: seq<Bytes>)
    ensures |r| == |ss|
  {
    seq(|ss|, i requires 0 <= i < |ss| => StringBytes(ss[i]))
  }

  /** What stands between the parameters and the blocks: the name and the path. */
  function NameAndPath(name: Bytes, path: seq<Bytes>): Bytes { StringBytes(name) + Table(StringItems(path)) }

  /** function.Write. */
  function EncodeFunction(i: nat, params: seq<int>, ret: int, name: Bytes, path: seq<Bytes>, blocks: seq<Block<nat>>): Bytes {
    var own, rest, code := Be32(|params|) + Words(params), NameAndPath(name, path), EncodeBlocks(blocks);
    var offsets := [32, 32 + |own|, 32 + |own| + |StringBytes(name)|, 32 + |own| + |rest|];
    Be32(32 + |own| + |rest| + |code|) + Be32(TYPE_FUNCTION) + Be32(i) + Be32(ret) + Words(offsets) + own + rest + code
  }

  /** builtin.Write. */
  function EncodeBuiltin(relation: bool, name: Bytes): Bytes {
    Be32(9 + |StringBytes(name)|) + Be32(TYPE_BUILTIN) + [if relation then 1 else 0] + StringBytes(name)
  }

  /** A function's getters find what function.Write has written. */
  lemma FunctionReadsBack(c: Bytes, at: int, i: nat, params: seq<int>, ret: int, name: Bytes, path: seq<Bytes>,
                          blocks: seq<Block<nat>>)
    requires At(c, at, EncodeFunction(i, params, ret, name, path, blocks))
    requires |EncodeFunction(i, params, ret, name, path, blocks)| < TWO_32
    requires AreWords(params) && 0 <= ret < TWO_32 && i < TWO_32
    ensures FunctionAt(c, at, i, params, ret, blocks)
  {
    hide At, Words, Be32, EncodeBlocks, Table, UWordsAt, StringBytes, AreWords;
    var own, rest, code := Be32(|params|) + Words(params), NameAndPath(name, path), EncodeBlocks(blocks);
    var offsets := [32, 32 + |own|, 32 + |own| + |StringBytes(name)|, 32 + |own| + |rest|];
    var length := 32 + |own| + |rest| + |code|;
    var h := Be32(length) + Be32(TYPE_FUNCTION) + Be32(i) + Be32(ret);
    var all := EncodeFunction(i, params, ret, name, path, blocks);
    assert |h| == 16 && |Words(offsets)| == 16 && |own| == 4 + 4 * |params|;
    assert all == h + Words(offsets) + own + rest + code;
    AtBounds(c, at, all);
    AtSplit(c, at, h + Words(offsets) + own + rest, code);
    AtSplit(c, at, h + Words(offsets) + own, rest);
    AtSplit(c, at, h + Words(offsets), own);
    AtSplit(c, at, h, Words(offsets));
    HeaderReadsBack(c, at, length, i, ret);
    AtSplit(c, at + 32, Be32(|params|), Words(params));
    WordReadBack(c, at + 32, |params|);
    UWordsReadBack(c, at + 36, params);
    LastOffset(c, at + 16, offsets[0], offsets[1], offsets[2], offsets[3]);
  }

  lemma HeaderReadsBack(c: Bytes, at: int, length: nat, i: nat, ret: int)
    requires At(c, at, Be32(length) + Be32(TYPE_FUNCTION) + Be32(i) + Be32(ret)) && 0 <= ret < TWO_32 && i < TWO_32
    ensures 0 <= at && at + 16 <= |c|
    ensures U32(c, at + 4) == TYPE_FUNCTION && U32(c, at + 8) == i && U32(c, at + 12) == ret
  {
    hide At, Be32;
    AtSplit(c, at, Be32(length) + Be32(TYPE_FUNCTION) + Be32(i), Be32(ret));
    AtSplit(c, at, Be32(length) + Be32(TYPE_FUNCTION), Be32(i));
    AtSplit(c, at, Be32(length), Be32(TYPE_FUNCTION));
    AtBounds(c, at, Be32(length));
    WordReadBack(c, at + 4, TYPE_FUNCTION);
    WordReadBack(c, at + 8, i);
    WordReadBack(c, at + 12, ret);
  }

  lemma LastOffset(c: Bytes, at: int, o0: int, o1: int, o2: int, o3: int)
    requires At(c, at, Words([o0, o1, o2, o3])) && 0 <= o0 <= o1 <= o2 && o0 <= o3 < TWO_32 && o1 < TWO_32 && o2 < TWO_32
    ensures 0 <= at && at + 16 <= |c| && U32(c, at + 12) == o3
  {
    hide At, UWordsAt, Words;
    UWordsReadBack(c, at, [o0, o1, o2, o3]);
    WordFour(c, at, [o0, o1, o2, o3]);
  }

  lemma WordFour(c: Bytes, at: int, ws: seq<int>)
    requires |ws| == 4 && UWordsAt(c, at, 4) == Some(ws)
    ensures 0 <= at && at + 16 <= |c| && U32(c, at + 12) == ws[3]
  {
    assert UWordsAt(c, at, 4).value[3] == U32(c, at + 4 * 3);
  }

  lemma BuiltinReadsBack(c: Bytes, at: int, relation: bool, name: Bytes)
    requires At(c, at, EncodeBuiltin(relation, name))
    ensures BuiltinAt(c, at)
  {
    hide At, Be32, StringBytes;
    var length := 9 + |StringBytes(name)|;
    var flag: Bytes := [if relation then 1 else 0];
    AtBounds(c, at, EncodeBuiltin(relation, name));
    AtSplit(c, at, Be32(length) + Be32(TYPE_BUILTIN) + flag, StringBytes(name));
    AtSplit(c, at, Be32(length) + Be32(TYPE_BUILTIN), flag);
    AtSplit(c, at, Be32(length), Be32(TYPE_BUILTIN));
    WordReadBack(c, at + 4, TYPE_BUILTIN);
  }

  /** The names and paths that go with a program's functions. */
  datatype Title = Title(name: Bytes, path: seq<Bytes>, relation: bool)

  function EncodeFunc(f: Func<nat>, i: nat, title: Title): Bytes {
    match f
    case Builtin(_) => EncodeBuiltin(title.relation, title.name)
    case Func(_, params, ret, blocks) => EncodeFunction(i, params, ret, title.name, title.path, blocks)
  }

  function FuncItems(funcs: seq<Func<nat>>, titles: seq<Title>): (r: seq<Bytes>)
    requires |titles| == |funcs|
    ensures |r| == |funcs|
  {
    seq(|funcs|, i requires 0 <= i < |funcs| => EncodeFunc(funcs[i], i, titles[i]))
  }

  /** The compiled function table finds every function, with its parameters, return
      local and blocks. */
  lemma FuncsReadBack(funcs: seq<Func<nat>>, titles: seq<Title>)
    requires |titles| == |funcs| && |Table(FuncItems(funcs, titles))| < TWO_32
    requires forall i | 0 <= i < |funcs| :: FuncFits(funcs[i])
    ensures FuncsAt(Table(FuncItems(funcs, titles)), funcs)
  {
    hide At, Table, EncodeFunction, EncodeBuiltin, FunctionAt, BuiltinAt, BlocksFit, AreWords;
    var items := FuncItems(funcs, titles);
    var c := Table(items);
    WholeStands(c);
    TableReadsBack(c, 0, items);
    forall i | 0 <= i < |funcs| ensures FuncAt(c, FuncOffset(c, i), funcs[i], i) {
      AtBounds(c, FuncOffset(c, i), items[i]);
      match funcs[i]
      case Builtin(_) => BuiltinReadsBack(c, FuncOffset(c, i), titles[i].relation, titles[i].name);
      case Func(_, params, ret, blocks) =>
        FunctionReadsBack(c, FuncOffset(c, i), i, params, ret, titles[i].name, titles[i].path, blocks);
    }
  }

  lemma WholeStands(c: Bytes)
    ensures At(c, 0, c)
  {
  }
}
