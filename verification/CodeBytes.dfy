/** Code, byte by byte: operands, statements and a whole plan. */
module CodeBytes {
  import opened ByteCodec
  import opened Ir
  import opened Bytecode

  /** A word has the kind of the operand in its first byte. */
  lemma OperandsInBytes()
    ensures Be32(OperandWord(Local(2))) == [0, 0, 0, 2]
    ensures Be32(OperandWord(BoolConst(false))) == [1, 0, 0, 0] && Be32(OperandWord(BoolConst(true))) == [1, 0, 0, 1]
    ensures Be32(OperandWord(StringIndex(258))) == [2, 0, 1, 2]
  {
  }

  lemma OneWord(v: int)
    ensures Words([v]) == Be32(v)
  {
    WordsNone();
    WordsAppend([], v);
    assert [] + [v] == [v];
  }

  /** The numbers of the statements. */
  lemma TypesInBytes(s: Stmt<nat>)
    ensures (s.ArrayAppend? ==> TypeOf(s) == 1) && (s.AssignInt? ==> TypeOf(s) == 2) && (s.AssignVar? ==> TypeOf(s) == 3) && (s.AssignVarOnce? ==> TypeOf(s) == 4)
    ensures (s.BlockStmt? ==> TypeOf(s) == 5) && (s.Break? ==> TypeOf(s) == 6) && (s.Call? ==> TypeOf(s) == 7) && (s.CallDynamic? ==> TypeOf(s) == 8)
    ensures (s.Dot? ==> TypeOf(s) == 9) && (s.Equal? ==> TypeOf(s) == 10) && (s.IsArray? ==> TypeOf(s) == 11) && (s.IsDefined? ==> TypeOf(s) == 12)
    ensures (s.IsObject? ==> TypeOf(s) == 13) && (s.IsSet? ==> TypeOf(s) == 14) && (s.IsUndefined? ==> TypeOf(s) == 15) && (s.Len? ==> TypeOf(s) == 16)
    ensures (s.MakeArray? ==> TypeOf(s) == 17) && (s.MakeNull? ==> TypeOf(s) == 18) && (s.MakeNumberInt? ==> TypeOf(s) == 19) && (s.MakeNumberRef? ==> TypeOf(s) == 20)
    ensures (s.MakeObject? ==> TypeOf(s) == 21) && (s.MakeSet? ==> TypeOf(s) == 22) && (s.Nop? ==> TypeOf(s) == 23) && (s.Not? ==> TypeOf(s) == 24)
    ensures (s.NotEqual? ==> TypeOf(s) == 25) && (s.ObjectInsert? ==> TypeOf(s) == 26) && (s.ObjectInsertOnce? ==> TypeOf(s) == 27) && (s.ObjectMerge? ==> TypeOf(s) == 28)
    ensures (s.ResetLocal? ==> TypeOf(s) == 29) && (s.ResultSetAdd? ==> TypeOf(s) == 30) && (s.ReturnLocal? ==> TypeOf(s) == 31) && (s.Scan? ==> TypeOf(s) == 32)
    ensures (s.SetAdd? ==> TypeOf(s) == 33) && (s.With? ==> TypeOf(s) == 34)
  {
  }

  lemma SmallWord(t: Byte, v: int)
    requires 0 <= v < 0x100
    ensures Be32(t as int * 0x100_0000 + v) == [t, 0, 0, v]
  {
    Be32Value(t as int * 0x100_0000 + v);
    hide Be32;
  }

  lemma HeadInBytes(t: Byte, v: int)
    requires 0 <= v < 0x100
    ensures Be32(Pack(t, v)) == [t, 0, 0, v] && Be32(v) == [0, 0, 0, v]
  {
    hide Be32;
    SmallWord(t, v);
    SmallWord(0, v);
    PackSmall(t, v);
  }

  lemma PackSmall(t: Byte, v: int)
    requires 0 <= v < 0x100
    ensures Pack(t, v) == t as int * 0x100_0000 + v
  {
    assert v / TWO_24 == 0;
    hide Or;
    assert Or(t, 0) == t;
  }

  /** Statements with one local and nothing else. */
  predicate OneLocal(s: Stmt<nat>, l: int) {
    || s == MakeNull(l) || s == ResultSetAdd(l) || s == IsDefined(l) || s == IsUndefined(l) || s == MakeSet(l)
    || s == MakeObject(l) || s == ResetLocal(l) || s == ReturnLocal(l)
  }

  lemma OneLocalParts(s: Stmt<nat>, l: int)
    requires OneLocal(s, l) && 0 <= l < 0x100
    ensures Fields(s) == [l] && Nested(s) == []
  {
  }

  /** A statement with one local: its type, its length in 24 bits, the local. */
  lemma LocalInBytes(s: Stmt<nat>, l: int)
    requires OneLocal(s, l) && 0 <= l < 0x100
    ensures Encode(s) == [TypeOf(s), 0, 0, 8] + [0, 0, 0, l]
  {
    OneLocalParts(s, l);
    OneWord(l);
    HeadInBytes(TypeOf(s), 8);
    HeadInBytes(0, l);
    hide Fields, Nested, TypeOf, Words, Pack, OneLocal, Be32;
  }

  /** A plan with one block, which makes null and adds it to the result set. */
  lemma PlanInBytes()
    ensures EncodeBlocks([Block([MakeNull(2), ResultSetAdd(2)])])
         == [0, 0, 0, 36, 0, 0, 0, 1, 0, 0, 0, 12]
            + ([0, 0, 0, 24, 0, 0, 0, 2] + ([18, 0, 0, 8, 0, 0, 0, 2] + [30, 0, 0, 8, 0, 0, 0, 2]))
  {
    var b := Block([MakeNull(2), ResultSetAdd(2)]);
    BlockInBytes(b);
    OneBlock(b);
    OneWord(12);
    hide EncodeBlock, Words, BlockBytes, BlockOffsets;
    PlanParts(b);
  }

  lemma BlockInBytes(b: Block<nat>)
    requires b == Block([MakeNull(2), ResultSetAdd(2)])
    ensures EncodeBlock(b) == [0, 0, 0, 24, 0, 0, 0, 2] + ([18, 0, 0, 8, 0, 0, 0, 2] + [30, 0, 0, 8, 0, 0, 0, 2])
  {
    hide *;
    StatementsInBytes();
    SmallWord(0, 24);
    SmallWord(0, 2);
    TwoStatements(b);
  }

  lemma StatementsInBytes()
    ensures Encode(MakeNull(2)) == [18, 0, 0, 8, 0, 0, 0, 2] && Encode(ResultSetAdd(2)) == [30, 0, 0, 8, 0, 0, 0, 2]
  {
    hide Encode, TypeOf;
    LocalInBytes(MakeNull(2), 2);
    LocalInBytes(ResultSetAdd(2), 2);
    TypesInBytes(MakeNull(2));
    TypesInBytes(ResultSetAdd(2));
  }

  lemma TwoStatements(b: Block<nat>)
    requires |b.stmts| == 2 && |Encode(b.stmts[0])| == |Encode(b.stmts[1])| == 8
    ensures EncodeBlock(b) == Be32(24) + Be32(2) + (Encode(b.stmts[0]) + Encode(b.stmts[1]))
  {
    hide Encode, Be32;
    assert StmtBytes(b.stmts, 0) == [];
    assert StmtBytes(b.stmts, 1) == [] + Encode(b.stmts[0]);
    assert StmtBytes(b.stmts, 2) == StmtBytes(b.stmts, 1) + Encode(b.stmts[1]);
  }

  lemma OneBlock(b: Block<nat>)
    ensures BlockBytes([b], 1) == EncodeBlock(b) && BlockOffsets([b], 1) == [12]
  {
    hide EncodeBlock;
    assert BlockBytes([b], 0) == [] && BlockBytes([b], 1) == [] + EncodeBlock(b);
    assert BlockOffsets([b], 1)[0] == 12;
  }

  lemma PlanParts(b: Block<nat>)
    requires |EncodeBlock(b)| == 24 && BlockBytes([b], 1) == EncodeBlock(b) && BlockOffsets([b], 1) == [12] && Words([12]) == Be32(12)
    ensures EncodeBlocks([b]) == [0, 0, 0, 36, 0, 0, 0, 1, 0, 0, 0, 12] + EncodeBlock(b)
  {
    SmallWord(0, 36);
    SmallWord(0, 1);
    SmallWord(0, 12);
    hide EncodeBlock, Words, BlockBytes, BlockOffsets, Be32;
  }
}
