/** The compiler as it writes code: each statement, block and list of blocks starts with
    room for what is only known at its end. */
module CodeWriters {
  import opened ByteCodec
  import opened Ir
  import opened Bytecode
  import opened Compilers

  /** Filling in the word at the start of what has been written. */
  lemma HeadFilled(rest: Bytes, v: int)
    ensures Patched(Zeros(4) + rest, 0, v) == Be32(v) + rest
  {
    hide Be32;
    assert (Zeros(4) + rest)[4..] == rest;
  }

  method PutUint32(data: Bytes, pos: nat, v: int) returns (d: Bytes)
    requires pos + 4 <= |data|
    ensures d == Patched(data, pos, v)
  {
    d := data[..pos] + Be32(v) + data[pos + 4..];
  }

  method AppendWords(data: Bytes, ws: seq<int>) returns (d: Bytes)
    ensures d == data + Words(ws)
  {
    hide Words, Be32;
    d := data;
    WordsNone();
    assert ws[..0] == [];
    for i := 0 to |ws|
      invariant d == data + Words(ws[..i])
    {
      WordsAppend(ws[..i], ws[i]);
      assert ws[..i + 1] == ws[..i] + [ws[i]];
      d := d + Be32(ws[i]);
    }
    assert ws[..|ws|] == ws;
  }

  /** The Write methods of all statements: room for type and length, the words, the
      nested blocks, and then the type and length. */
  method WriteStmt(t: Byte, fields: seq<int>, nested: Bytes) returns (d: Bytes)
    ensures d == Be32(Pack(t, 4 + 4 * |fields| + |nested|)) + Words(fields) + nested
  {
    hide Be32, Words, Patched, Zeros, Pack;
    d := AppendWords(Zeros(4), fields);
    d := d + nested;
    assert d == Zeros(4) + (Words(fields) + nested);
    HeadFilled(Words(fields) + nested, Pack(t, |d|));
    d := PutUint32(d, 0, Pack(t, |d|));
    HeadAndRest(Be32(Pack(t, 4 + 4 * |fields| + |nested|)), Words(fields), nested);
  }

  lemma HeadAndRest(h: Bytes, w: Bytes, body: Bytes)
    ensures h + (w + body) == h + w + body
  {
  }

  function Concat(items: seq<Bytes>, n: nat): Bytes
    requires n <= |items|
  {
    if n == 0 then [] else Concat(items, n - 1) + items[n - 1]
  }

  /** block.Write. */
  method WriteBlock(stmts: seq<Bytes>) returns (d: Bytes)
    ensures d == Be32(8 + |Concat(stmts, |stmts|)|) + Be32(|stmts|) + Concat(stmts, |stmts|)
  {
    hide Be32, Patched, Zeros;
    d := Zeros(4) + Be32(|stmts|);
    for i := 0 to |stmts|
      invariant d == Zeros(4) + (Be32(|stmts|) + Concat(stmts, i))
    {
      d := d + stmts[i];
    }
    var body := Concat(stmts, |stmts|);
    HeadFilled(Be32(|stmts|) + body, |d|);
    d := PutUint32(d, 0, |d|);
    HeadAndRest(Be32(8 + |body|), Be32(|stmts|), body);
  }

  function ConcatOffsets(items: seq<Bytes>): (r: seq<int>)
    ensures |r| == |items|
  {
    seq(|items|, i requires 0 <= i < |items| => 8 + 4 * |items| + |Concat(items, i)|)
  }

  lemma OffsetPut(n: int, items: seq<Bytes>, i: nat)
    requires i < |items|
    ensures var offs, front := ConcatOffsets(items), Zeros(4) + Be32(n);
            var d := front + Words(offs[..i]) + Zeros(4 * (|offs| - i)) + Concat(items, i);
            && |d| == offs[i] && 12 + 4 * i <= |d|
            && Patched(d, 8 + 4 * i, |d|) + items[i]
            == front + Words(offs[..i + 1]) + Zeros(4 * (|offs| - i - 1)) + Concat(items, i + 1)
  {
    var offs, front := ConcatOffsets(items), Zeros(4) + Be32(n);
    hide Words, Zeros, Patched, Be32, ConcatOffsets;
    RoomNext(front, offs, i, Concat(items, i));
    OffsetIsLength(items, i);
    var w, z := Words(offs[..i + 1]), Zeros(4 * (|offs| - i - 1));
    assert front + w + z + Concat(items, i) + items[i] == front + w + z + (Concat(items, i) + items[i]);
  }

  lemma OffsetIsLength(items: seq<Bytes>, i: nat)
    requires i < |items|
    ensures ConcatOffsets(items)[i] == 8 + 4 * |items| + |Concat(items, i)|
  {
    hide Concat;
  }

  /** blocks.Write: room for the offsets, each filled in when its block is written. */
  method WriteBlocks(blocks: seq<Bytes>) returns (d: Bytes)
    ensures var body := Concat(blocks, |blocks|);
            d == Be32(8 + 4 * |blocks| + |body|) + Be32(|blocks|) + Words(ConcatOffsets(blocks)) + body
  {
    hide Be32, Patched, Zeros, Words, ConcatOffsets;
    var n := |blocks|;
    ghost var offs := ConcatOffsets(blocks);
    d := Zeros(4) + Be32(n) + Zeros(4 * n);
    WordsNone();
    assert offs[..0] == [];
    assert d == Zeros(4) + Be32(n) + Words(offs[..0]) + Zeros(4 * n) + Concat(blocks, 0);
    for i := 0 to n
      invariant d == Zeros(4) + Be32(n) + Words(offs[..i]) + Zeros(4 * (n - i)) + Concat(blocks, i)
    {
      OffsetPut(n, blocks, i);
      d := PutUint32(d, 8 + 4 * i, |d|);
      d := d + blocks[i];
    }
    var body := Concat(blocks, n);
    RoomFull(Zeros(4) + Be32(n), offs, body);
    assert d == Zeros(4) + (Be32(n) + Words(offs) + body);
    HeadFilled(Be32(n) + Words(offs) + body, |d|);
    d := PutUint32(d, 0, |d|);
    assert Be32(8 + 4 * n + |body|) + (Be32(n) + Words(offs) + body)
        == Be32(8 + 4 * n + |body|) + Be32(n) + Words(offs) + body;
  }

  // ---- Compiling ----

  lemma EncodeIs(s: Stmt<nat>)
    ensures Encode(s) == Be32(Pack(TypeOf(s), 4 + 4 * |Fields(s)| + |Nested(s)|)) + Words(Fields(s)) + Nested(s)
  {
    EncodeParts(s);
  }

  lemma {:induction false} StmtsConcat(ss: seq<Stmt<nat>>, items: seq<Bytes>, n: nat)
    requires n <= |ss| == |items| && forall i | 0 <= i < |ss| :: items[i] == Encode(ss[i])
    ensures Concat(items, n) == StmtBytes(ss, n)
  {
    hide Encode;
    if n > 0 {
      StmtsConcat(ss, items, n - 1);
    }
  }

  lemma {:induction false} BlocksConcat(bs: seq<Block<nat>>, items: seq<Bytes>, n: nat)
    requires n <= |bs| == |items| && forall i | 0 <= i < |bs| :: items[i] == EncodeBlock(bs[i])
    ensures Concat(items, n) == BlockBytes(bs, n)
  {
    hide EncodeBlock;
    if n > 0 {
      BlocksConcat(bs, items, n - 1);
    }
  }

  lemma BlocksConcatOffsets(bs: seq<Block<nat>>, items: seq<Bytes>)
    requires |bs| == |items| && forall i | 0 <= i < |bs| :: items[i] == EncodeBlock(bs[i])
    ensures ConcatOffsets(items) == BlockOffsets(bs, |bs|)
  {
    hide EncodeBlock, BlockBytes, Concat;
    forall i | 0 <= i < |bs| ensures Concat(items, i) == BlockBytes(bs, i) {
      BlocksConcat(bs, items, i);
    }
    assert ConcatOffsets(items) == BlockOffsets(bs, |bs|);
  }

  /** A statement's encoding, or None where its names do not resolve. */
  ghost function CompiledStmt(s: Stmt<string>, index: map<string, nat>): Option<Bytes> {
    var r := Resolve(s, index);
    if r.None? then None else Some(Encode(r.value))
  }

  ghost function CompiledBlock(b: Block<string>, index: map<string, nat>): Option<Bytes> {
    var r := ResolveBlock(b, index);
    if r.None? then None else Some(EncodeBlock(r.value))
  }

  ghost function CompiledBlocks(bs: seq<Block<string>>, index: map<string, nat>): Option<Bytes> {
    var r := ResolveBlocks(bs, |bs|, index);
    if r.None? then None else Some(EncodeBlocks(r.value))
  }

  /** A resolved statement keeps its type and its words, whatever its blocks become. */
  function FlatOf(s: Stmt<string>, index: map<string, nat>): Option<Stmt<nat>> {
    match s
    case BlockStmt(_) => Some(BlockStmt([]))
    case Not(_) => Some(Not(Block([])))
    case Scan(local, keyLocal, valueLocal, _) => Some(Scan(local, keyLocal, valueLocal, Block([])))
    case With(local, segments, item, _) => Some(With(local, segments, item, Block([])))
    case _ => Resolve(s, index)
  }

  lemma FlatEncodes(s: Stmt<string>, index: map<string, nat>)
    requires !s.BlockStmt? && !s.Not? && !s.Scan? && !s.With? && FlatOf(s, index).Some?
    ensures FlatOf(s, index) == Resolve(s, index) && Nested(FlatOf(s, index).value) == []
  {
  }

  lemma NestedEncodes(s: Stmt<string>, index: map<string, nat>)
    requires s.Not? || s.Scan? || s.With?
    ensures FlatOf(s, index).Some? && (Resolve(s, index).Some? <==> ResolveBlock(s.block, index).Some?)
    ensures ResolveBlock(s.block, index).Some? ==>
              var t, u := FlatOf(s, index).value, Resolve(s, index).value;
              TypeOf(t) == TypeOf(u) && Fields(t) == Fields(u) && Nested(u) == EncodeBlock(ResolveBlock(s.block, index).value)
  {
    hide EncodeBlock, ResolveBlock, OperandWord, Unsigneds;
  }

  lemma BlockStmtEncodes(s: Stmt<string>, index: map<string, nat>)
    requires s.BlockStmt?
    ensures Resolve(s, index).Some? <==> ResolveBlocks(s.blocks, |s.blocks|, index).Some?
    ensures ResolveBlocks(s.blocks, |s.blocks|, index).Some? ==>
              var u := Resolve(s, index).value;
              TypeOf(u) == BLOCK_STMT && Fields(u) == [] && Nested(u) == EncodeBlocks(ResolveBlocks(s.blocks, |s.blocks|, index).value)
  {
    hide EncodeBlocks, ResolveBlocks;
  }

  method CompileStmt(s: Stmt<string>, index: map<string, nat>) returns (r: Option<Bytes>)
    ensures r == CompiledStmt(s, index)
    decreases s, 1
  {
    hide Resolve, ResolveBlock, ResolveBlocks, Encode, EncodeBlock, EncodeBlocks, Fields, TypeOf, Nested, Words, Be32, Pack, FlatOf;
    var data: Option<Bytes> := Some([]);
    if s.BlockStmt? {
      BlockStmtEncodes(s, index);
      data := CompileBlocks(s.blocks, index);
      if data.None? {
        return None;
      }
      EncodeIs(Resolve(s, index).value);
      var d := WriteStmt(BLOCK_STMT, [], data.value);
      return Some(d);
    }
    if s.Not? || s.Scan? || s.With? {
      NestedEncodes(s, index);
      data := CompileBlock(s.block, index);
      if data.None? {
        return None;
      }
    }
    var t := FlatOf(s, index);
    if t.None? {
      FlatUnresolved(s, index);
      return None;
    }
    if !s.Not? && !s.Scan? && !s.With? {
      FlatEncodes(s, index);
    }
    EncodeIs(Resolve(s, index).value);
    var d := WriteStmt(TypeOf(t.value), Fields(t.value), data.value);
    return Some(d);
  }

  lemma FlatUnresolved(s: Stmt<string>, index: map<string, nat>)
    requires FlatOf(s, index).None?
    ensures Resolve(s, index).None?
  {
  }

  lemma {:induction false} StmtsFailLater(ss: seq<Stmt<string>>, index: map<string, nat>, i: nat, n: nat)
    requires i <= n <= |ss| && ResolveStmts(ss, i, index).None?
    ensures ResolveStmts(ss, n, index).None?
  {
    hide Resolve;
    if i < n {
      StmtsFailLater(ss, index, i, n - 1);
    }
  }

  lemma {:induction false} BlocksFailLater(bs: seq<Block<string>>, index: map<string, nat>, i: nat, n: nat)
    requires i <= n <= |bs| && ResolveBlocks(bs, i, index).None?
    ensures ResolveBlocks(bs, n, index).None?
  {
    hide ResolveBlock;
    if i < n {
      BlocksFailLater(bs, index, i, n - 1);
    }
  }

  /** compileBlock: the statements in order, until one fails. */
  method CompileBlock(b: Block<string>, index: map<string, nat>) returns (r: Option<Bytes>)
    ensures r == CompiledBlock(b, index)
    decreases b, 0
  {
    hide Resolve, Encode, StmtBytes, Be32;
    var datas: seq<Bytes> := [];
    for i := 0 to |b.stmts|
      invariant |datas| == i && ResolveStmts(b.stmts, i, index).Some?
      invariant forall k | 0 <= k < i :: datas[k] == Encode(ResolveStmts(b.stmts, i, index).value[k])
    {
      var data := CompileStmt(b.stmts[i], index);
      if data.None? {
        StmtsFailLater(b.stmts, index, i + 1, |b.stmts|);
        return None;
      }
      datas := datas + [data.value];
    }
    ghost var ss := ResolveStmts(b.stmts, |b.stmts|, index).value;
    StmtsConcat(ss, datas, |ss|);
    BlockIs(Block(ss));
    var d := WriteBlock(datas);
    return Some(d);
  }

  /** compileBlocks. */
  method CompileBlocks(bs: seq<Block<string>>, index: map<string, nat>) returns (r: Option<Bytes>)
    ensures r == CompiledBlocks(bs, index)
    decreases bs
  {
    hide ResolveBlock, EncodeBlock, BlockBytes, BlockOffsets, ConcatOffsets, Be32, Words;
    var datas: seq<Bytes> := [];
    for i := 0 to |bs|
      invariant |datas| == i && ResolveBlocks(bs, i, index).Some?
      invariant forall k | 0 <= k < i :: datas[k] == EncodeBlock(ResolveBlocks(bs, i, index).value[k])
    {
      var data := CompileBlock(bs[i], index);
      if data.None? {
        BlocksFailLater(bs, index, i + 1, |bs|);
        return None;
      }
      datas := datas + [data.value];
    }
    ghost var compiled := ResolveBlocks(bs, |bs|, index).value;
    BlocksConcat(compiled, datas, |bs|);
    BlocksConcatOffsets(compiled, datas);
    BlocksAre(compiled);
    var d := WriteBlocks(datas);
    return Some(d);
  }
}
