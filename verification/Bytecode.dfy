/** The executable's encoding of statements: a 32-bit word with an 8-bit type and a
    24-bit length, operand words, then the nested blocks. */
module Bytecode {
  import opened ByteCodec
  import opened Ir

  const TWO_24 := 0x100_0000

  type Word = x: int | 0 <= x < TWO_32

  // ---- Packing a byte and 24 bits into a word ----

  /** Bitwise or. */
  function Or(a: nat, b: nat): (r: nat)
    ensures b == 0 ==> r == a
    ensures a == 0 ==> r == b
  {
    if a == 0 then b else if b == 0 then a else 2 * Or(a / 2, b / 2) + (if a % 2 == 1 || b % 2 == 1 then 1 else 0)
  }

  /** t << 24 | v for a byte `t`: the high byte of `v` is mixed into the type. */
  function Pack(t: nat, v: nat): int { Or(t, v / TWO_24) * TWO_24 + v % TWO_24 }

  /** getType and getLen. */
  function High(w: Word): nat { w / TWO_24 }

  function Low(w: Word): nat { w % TWO_24 }

  /** Packing loses nothing exactly when the value fits 24 bits. */
  lemma PackReadsBack(t: Byte, v: nat)
    ensures v < TWO_24 ==> 0 <= Pack(t, v) < TWO_32
    ensures v < TWO_24 ==> High(Pack(t, v)) == t
    ensures Pack(t, v) % TWO_24 == v <==> v < TWO_24
  {
    if v < TWO_24 {
      assert v / TWO_24 == 0;
    }
  }

  // ---- Operands ----

  const LOCAL := 0
  const BOOL_CONST := 1
  const STRING_INDEX := 2

  /** appendLocalOrConst. */
  function OperandWord(o: Operand): int {
    match o
    case Local(l) => Pack(LOCAL, l % TWO_32)
    case BoolConst(b) => Pack(BOOL_CONST, if b then 1 else 0)
    case StringIndex(i) => Pack(STRING_INDEX, i % TWO_32)
  }

  /** getLocalOrConst. */
  function ToOperand(w: Word): Option<Operand> {
    var t, v := High(w), Low(w);
    if t == LOCAL then Some(Local(v))
    else if t == BOOL_CONST then Some(BoolConst(v != 0))
    else if t == STRING_INDEX then Some(StringIndex(v))
    else None
  }

  predicate OperandFits(o: Operand) {
    match o
    case Local(l) => 0 <= l < TWO_24
    case BoolConst(_) => true
    case StringIndex(i) => 0 <= i < TWO_24
  }

  lemma OperandReadsBack(o: Operand)
    requires OperandFits(o)
    ensures 0 <= OperandWord(o) < TWO_32 && ToOperand(OperandWord(o)) == Some(o)
  {
    match o
    case Local(l) => PackReadsBack(LOCAL, l);
    case BoolConst(b) => PackReadsBack(BOOL_CONST, if b then 1 else 0);
    case StringIndex(i) => PackReadsBack(STRING_INDEX, i);
  }

  function OperandWords(os: seq<Operand>): (r: seq<int>)
    ensures |r| == |os|
  {
    seq(|os|, i requires 0 <= i < |os| => OperandWord(os[i]))
  }

  function ToOperands(ws: seq<Word>): (r: Option<seq<Operand>>)
    ensures r.Some? ==> |r.value| == |ws|
  {
    if forall i | 0 <= i < |ws| :: ToOperand(ws[i]).Some? then
      Some(seq(|ws|, i requires 0 <= i < |ws| && ToOperand(ws[i]).Some? => ToOperand(ws[i]).value))
    else None
  }

  predicate OperandsFit(os: seq<Operand>) { forall i | 0 <= i < |os| :: OperandFits(os[i]) }

  predicate AreWords(ws: seq<int>) { forall i | 0 <= i < |ws| :: 0 <= ws[i] < TWO_32 }

  lemma OperandsReadBack(os: seq<Operand>)
    requires OperandsFit(os)
    ensures AreWords(OperandWords(os)) && ToOperands(OperandWords(os)) == Some(os)
  {
    var ws := OperandWords(os);
    forall i | 0 <= i < |os| ensures 0 <= ws[i] < TWO_32 && ToOperand(ws[i]) == Some(os[i]) {
      OperandReadsBack(os[i]);
    }
    assert ToOperands(ws).value == os;
  }

  // ---- Signed numbers in words ----

  function Unsigned(v: int): Word { v % TWO_32 }

  function Signed(w: Word): int { if w < TWO_31 then w else w - TWO_32 }

  function ToSigned(ws: seq<Word>): (r: seq<int>)
    ensures |r| == |ws|
  {
    seq(|ws|, i requires 0 <= i < |ws| => Signed(ws[i]))
  }

  function Unsigneds(vs: seq<int>): (r: seq<Word>)
    ensures |r| == |vs|
  {
    seq(|vs|, i requires 0 <= i < |vs| => Unsigned(vs[i]))
  }

  lemma SignedReadsBack(v: int)
    requires IsInt32(v)
    ensures Signed(Unsigned(v)) == v
  {
  }

  lemma Int64ReadsBack(v: int)
    requires IsInt64(v)
    ensures Signed(Unsigned(v / TWO_32)) * TWO_32 + Unsigned(v) == v
  {
  }

  // ---- Statements ----

  const ARRAY_APPEND := 1
  const ASSIGN_INT := 2
  const ASSIGN_VAR := 3
  const ASSIGN_VAR_ONCE := 4
  const BLOCK_STMT := 5
  const BREAK_STMT := 6
  const CALL := 7
  const CALL_DYNAMIC := 8
  const DOT := 9
  const EQUAL := 10
  const IS_ARRAY := 11
  const IS_DEFINED := 12
  const IS_OBJECT := 13
  const IS_SET := 14
  const IS_UNDEFINED := 15
  const LEN := 16
  const MAKE_ARRAY := 17
  const MAKE_NULL := 18
  const MAKE_NUMBER_INT := 19
  const MAKE_NUMBER_REF := 20
  const MAKE_OBJECT := 21
  const MAKE_SET := 22
  const NOP := 23
  const NOT := 24
  const NOT_EQUAL := 25
  const OBJECT_INSERT := 26
  const OBJECT_INSERT_ONCE := 27
  const OBJECT_MERGE := 28
  const RESET_LOCAL := 29
  const RESULT_SET_ADD := 30
  const RETURN_LOCAL := 31
  const SCAN := 32
  const SET_ADD := 33
  const WITH := 34

  function TypeOf(s: Stmt<nat>): (r: Byte)
    ensures 1 <= r <= 34
  {
    match s
    case ArrayAppend(_, _) => ARRAY_APPEND
    case AssignInt(_, _) => ASSIGN_INT
    case AssignVar(_, _) => ASSIGN_VAR
    case AssignVarOnce(_, _) => ASSIGN_VAR_ONCE
    case BlockStmt(_) => BLOCK_STMT
    case Break(_) => BREAK_STMT
    case Call(_, _, _) => CALL
    case CallDynamic(_, _, _) => CALL_DYNAMIC
    case Dot(_, _, _) => DOT
    case Equal(_, _) => EQUAL
    case IsArray(_) => IS_ARRAY
    case IsDefined(_) => IS_DEFINED
    case IsObject(_) => IS_OBJECT
    case IsSet(_) => IS_SET
    case IsUndefined(_) => IS_UNDEFINED
    case Len(_, _) => LEN
    case MakeArray(_, _) => MAKE_ARRAY
    case MakeNull(_) => MAKE_NULL
    case MakeNumberInt(_, _) => MAKE_NUMBER_INT
    case MakeNumberRef(_, _) => MAKE_NUMBER_REF
    case MakeObject(_) => MAKE_OBJECT
    case MakeSet(_) => MAKE_SET
    case Nop => NOP
    case Not(_) => NOT
    case NotEqual(_, _) => NOT_EQUAL
    case ObjectInsert(_, _, _) => OBJECT_INSERT
    case ObjectInsertOnce(_, _, _) => OBJECT_INSERT_ONCE
    case ObjectMerge(_, _, _) => OBJECT_MERGE
    case ResetLocal(_) => RESET_LOCAL
    case ResultSetAdd(_) => RESULT_SET_ADD
    case ReturnLocal(_) => RETURN_LOCAL
    case Scan(_, _, _, _) => SCAN
    case SetAdd(_, _) => SET_ADD
    case With(_, _, _, _) => WITH
  }

  /** The words behind a statement's type and length. */
  function Fields(s: Stmt<nat>): seq<int> {
    match s
    case Nop => []
    case ArrayAppend(item, target) => [Unsigned(target), OperandWord(item)]
    case AssignInt(value, target) => [Unsigned(value / TWO_32), Unsigned(value), Unsigned(target)]
    case AssignVar(source, target) => [Unsigned(target), OperandWord(source)]
    case AssignVarOnce(source, target) => [Unsigned(target), OperandWord(source)]
    case BlockStmt(_) => []
    case Break(levels) => [Unsigned(levels)]
    case Call(func, args, result) => [Unsigned(result), Unsigned(func), |args|] + OperandWords(args)
    case CallDynamic(params, path, result) =>
      [Unsigned(result), |params|] + Unsigneds(params) + ([|path|] + OperandWords(path))
    case Dot(source, key, target) => [Unsigned(target), OperandWord(source), OperandWord(key)]
    case Equal(a, b) => [OperandWord(a), OperandWord(b)]
    case IsArray(source) => [OperandWord(source)]
    case IsDefined(local) => [Unsigned(local)]
    case IsObject(source) => [OperandWord(source)]
    case IsSet(source) => [OperandWord(source)]
    case IsUndefined(local) => [Unsigned(local)]
    case Len(source, target) => [Unsigned(target), OperandWord(source)]
    case MakeArray(capacity, target) => [Unsigned(capacity), Unsigned(target)]
    case MakeNull(target) => [Unsigned(target)]
    case MakeNumberInt(value, target) => [Unsigned(value / TWO_32), Unsigned(value), Unsigned(target)]
    case MakeNumberRef(text, target) => [Unsigned(text), Unsigned(target)]
    case MakeObject(target) => [Unsigned(target)]
    case MakeSet(target) => [Unsigned(target)]
    case Not(_) => []
    case NotEqual(a, b) => [OperandWord(a), OperandWord(b)]
    case ObjectInsert(key, item, target) => [Unsigned(target), OperandWord(key), OperandWord(item)]
    case ObjectInsertOnce(key, item, target) => [Unsigned(target), OperandWord(key), OperandWord(item)]
    case ObjectMerge(left, right, target) => [Unsigned(left), Unsigned(right), Unsigned(target)]
    case ResetLocal(target) => [Unsigned(target)]
    case ResultSetAdd(local) => [Unsigned(local)]
    case ReturnLocal(local) => [Unsigned(local)]
    case Scan(local, keyLocal, valueLocal, _) => [Unsigned(local), Unsigned(keyLocal), Unsigned(valueLocal)]
    case SetAdd(item, target) => [Unsigned(target), OperandWord(item)]
    case With(local, segments, item, _) => [Unsigned(local), OperandWord(item), |segments|] + Unsigneds(segments)
  }

  function Encode(s: Stmt<nat>): (r: Bytes)
    ensures |r| >= 4
    decreases s, 1
  {
    var w := Words(Fields(s));
    var body := Nested(s);
    Be32(Pack(TypeOf(s), 4 + |w| + |body|)) + w + body
  }

  function Nested(s: Stmt<nat>): Bytes
    decreases s, 0
  {
    match s
    case BlockStmt(blocks) => EncodeBlocks(blocks)
    case Not(block) => EncodeBlock(block)
    case Scan(_, _, _, block) => EncodeBlock(block)
    case With(_, _, _, block) => EncodeBlock(block)
    case _ => []
  }

  /** block.Write: its length, the number of statements, the statements. */
  function EncodeBlock(b: Block<nat>): Bytes
    decreases b, 0
  {
    var body := StmtBytes(b.stmts, |b.stmts|);
    Be32(8 + |body|) + Be32(|b.stmts|) + body
  }

  function StmtBytes(ss: seq<Stmt<nat>>, n: nat): Bytes
    requires n <= |ss|
    decreases ss, n
  {
    if n == 0 then [] else StmtBytes(ss, n - 1) + Encode(ss[n - 1])
  }

  /** blocks.Write: its length, the number of blocks, where each starts, the blocks. */
  function EncodeBlocks(bs: seq<Block<nat>>): Bytes
    decreases bs, |bs| + 2
  {
    var body := BlockBytes(bs, |bs|);
    Be32(8 + 4 * |bs| + |body|) + Be32(|bs|) + Words(BlockOffsets(bs, |bs|)) + body
  }

  function BlockBytes(bs: seq<Block<nat>>, n: nat): Bytes
    requires n <= |bs|
    decreases bs, n
  {
    if n == 0 then [] else BlockBytes(bs, n - 1) + EncodeBlock(bs[n - 1])
  }

  function BlockOffsets(bs: seq<Block<nat>>, n: nat): (r: seq<int>)
    requires n <= |bs|
    ensures |r| == n
    decreases bs, |bs| + 1
  {
    seq(n, i requires 0 <= i < n => 8 + 4 * |bs| + |BlockBytes(bs, i)|)
  }

  // ---- What the encoding can hold ----

  predicate FlatFits(s: Stmt<nat>) {
    match s
    case Nop => true
    case ArrayAppend(item, target) => OperandFits(item) && 0 <= target < TWO_32
    case AssignInt(value, target) => IsInt64(value) && 0 <= target < TWO_32
    case AssignVar(source, target) => OperandFits(source) && 0 <= target < TWO_32
    case AssignVarOnce(source, target) => OperandFits(source) && 0 <= target < TWO_32
    case BlockStmt(_) => true
    case Break(levels) => 0 <= levels < TWO_32
    case Call(func, args, result) => func < TWO_32 && OperandsFit(args) && 0 <= result < TWO_32
    case CallDynamic(params, path, result) => AreWords(params) && OperandsFit(path) && 0 <= result < TWO_32
    case Dot(source, key, target) => OperandFits(source) && OperandFits(key) && 0 <= target < TWO_32
    case Equal(a, b) => OperandFits(a) && OperandFits(b)
    case IsArray(source) => OperandFits(source)
    case IsDefined(local) => 0 <= local < TWO_32
    case IsObject(source) => OperandFits(source)
    case IsSet(source) => OperandFits(source)
    case IsUndefined(local) => 0 <= local < TWO_32
    case Len(source, target) => OperandFits(source) && 0 <= target < TWO_32
    case MakeArray(capacity, target) => IsInt32(capacity) && 0 <= target < TWO_32
    case MakeNull(target) => 0 <= target < TWO_32
    case MakeNumberInt(value, target) => IsInt64(value) && 0 <= target < TWO_32
    case MakeNumberRef(text, target) => 0 <= text < TWO_32 && 0 <= target < TWO_32
    case MakeObject(target) => 0 <= target < TWO_32
    case MakeSet(target) => 0 <= target < TWO_32
    case Not(_) => true
    case NotEqual(a, b) => OperandFits(a) && OperandFits(b)
    case ObjectInsert(key, item, target) => OperandFits(key) && OperandFits(item) && 0 <= target < TWO_32
    case ObjectInsertOnce(key, item, target) => OperandFits(key) && OperandFits(item) && 0 <= target < TWO_32
    case ObjectMerge(left, right, target) => 0 <= left < TWO_32 && 0 <= right < TWO_32 && 0 <= target < TWO_32
    case ResetLocal(target) => 0 <= target < TWO_32
    case ResultSetAdd(local) => 0 <= local < TWO_32
    case ReturnLocal(local) => 0 <= local < TWO_32
    case Scan(local, keyLocal, valueLocal, _) => 0 <= local < TWO_32 && 0 <= keyLocal < TWO_32 && 0 <= valueLocal < TWO_32
    case SetAdd(item, target) => OperandFits(item) && 0 <= target < TWO_32
    case With(local, segments, item, _) => 0 <= local < TWO_32 && AllInt32(segments) && OperandFits(item)
  }

  /** Operands fit their fields and every statement is shorter than 2^24 bytes. */
  predicate Fits(s: Stmt<nat>)
    decreases s, 1
  {
    && FlatFits(s) && |Encode(s)| < TWO_24
    && match s
       case BlockStmt(blocks) => forall i | 0 <= i < |blocks| :: BlockFits(blocks[i])
       case Not(block) => BlockFits(block)
       case Scan(_, _, _, block) => BlockFits(block)
       case With(_, _, _, block) => BlockFits(block)
       case _ => true
  }

  predicate BlockFits(b: Block<nat>)
    decreases b, 0
  {
    |EncodeBlock(b)| < TWO_32 && forall i | 0 <= i < |b.stmts| :: Fits(b.stmts[i])
  }

  predicate BlocksFit(bs: seq<Block<nat>>) {
    |EncodeBlocks(bs)| < TWO_32 && forall i | 0 <= i < |bs| :: BlockFits(bs[i])
  }

  // ---- Statements from their words ----

  /** The getters of the statements without nested blocks: word `i` stands at byte
      4 + 4 * i of the statement. */
  function FromFields(t: nat, ws: seq<Word>): Option<Stmt<nat>> {
    var n := |ws|;
    if t == NOP then Some(Nop)
    else if t == ASSIGN_INT && n == 3 then Some(AssignInt(Signed(ws[0]) * TWO_32 + ws[1], ws[2]))
    else if t == MAKE_NUMBER_INT && n == 3 then Some(MakeNumberInt(Signed(ws[0]) * TWO_32 + ws[1], ws[2]))
    else if t == OBJECT_MERGE && n == 3 then Some(ObjectMerge(ws[0], ws[1], ws[2]))
    else if t == MAKE_ARRAY && n == 2 then Some(MakeArray(Signed(ws[0]), ws[1]))
    else if t == MAKE_NUMBER_REF && n == 2 then Some(MakeNumberRef(ws[0], ws[1]))
    else if t == CALL then CallFrom(ws)
    else if t == CALL_DYNAMIC then CallDynamicFrom(ws)
    else if n == 1 then FromOneField(t, ws[0])
    else FromOperands(t, ws)
  }

  function FromOneField(t: nat, w: Word): Option<Stmt<nat>> {
    var o := ToOperand(w);
    if t == BREAK_STMT then Some(Break(w))
    else if t == IS_DEFINED then Some(IsDefined(w))
    else if t == IS_UNDEFINED then Some(IsUndefined(w))
    else if t == MAKE_NULL then Some(MakeNull(w))
    else if t == MAKE_OBJECT then Some(MakeObject(w))
    else if t == MAKE_SET then Some(MakeSet(w))
    else if t == RESET_LOCAL then Some(ResetLocal(w))
    else if t == RESULT_SET_ADD then Some(ResultSetAdd(w))
    else if t == RETURN_LOCAL then Some(ReturnLocal(w))
    else if o.None? then None
    else if t == IS_ARRAY then Some(IsArray(o.value))
    else if t == IS_OBJECT then Some(IsObject(o.value))
    else if t == IS_SET then Some(IsSet(o.value))
    else None
  }

  function FromOperands(t: nat, ws: seq<Word>): Option<Stmt<nat>> {
    var n := |ws|;
    if n != 2 && n != 3 then None
    else
      var first, second := ToOperand(ws[0]), ToOperand(ws[1]);
      if second.None? then None
      else if t == ARRAY_APPEND && n == 2 then Some(ArrayAppend(second.value, ws[0]))
      else if t == ASSIGN_VAR && n == 2 then Some(AssignVar(second.value, ws[0]))
      else if t == ASSIGN_VAR_ONCE && n == 2 then Some(AssignVarOnce(second.value, ws[0]))
      else if t == LEN && n == 2 then Some(Len(second.value, ws[0]))
      else if t == SET_ADD && n == 2 then Some(SetAdd(second.value, ws[0]))
      else if n == 3 then
        var third := ToOperand(ws[2]);
        if third.None? then None
        else if t == DOT then Some(Dot(second.value, third.value, ws[0]))
        else if t == OBJECT_INSERT then Some(ObjectInsert(second.value, third.value, ws[0]))
        else if t == OBJECT_INSERT_ONCE then Some(ObjectInsertOnce(second.value, third.value, ws[0]))
        else None
      else if first.None? then None
      else if t == EQUAL then Some(Equal(first.value, second.value))
      else if t == NOT_EQUAL then Some(NotEqual(first.value, second.value))
      else None
  }

  function CallFrom(ws: seq<Word>): Option<Stmt<nat>> {
    if |ws| < 3 || |ws| - 3 < ws[2] then None
    else
      var args := ToOperands(ws[3..ws[2] as int + 3]);
      if args.None? then None else Some(Call(ws[1], args.value, ws[0]))
  }

  function CallDynamicFrom(ws: seq<Word>): Option<Stmt<nat>> {
    if |ws| < 2 || |ws| - 3 < ws[1] then None
    else
      var rest := ws[ws[1] as int + 2..];
      if |rest| - 1 < rest[0] then None
      else
        var path := ToOperands(rest[1..rest[0] as int + 1]);
        if path.None? then None else Some(CallDynamic(ws[2..ws[1] as int + 2], path.value, ws[0]))
  }

  /** The words of a statement with a fixed number of fields. */
  lemma FixedWords(s: Stmt<nat>)
    requires FlatFits(s) && !s.Call? && !s.CallDynamic? && !s.With?
    ensures AreWords(Fields(s))
  {
    hide OperandWord, ToOperand, OperandFits;
    if s.ArrayAppend? || s.SetAdd? || s.ObjectInsert? || s.ObjectInsertOnce? {
      OperandReadsBack(s.item);
    }
    if s.Dot? || s.ObjectInsert? || s.ObjectInsertOnce? {
      OperandReadsBack(s.key);
    }
    if s.AssignVar? || s.AssignVarOnce? || s.Len? || s.Dot? || s.IsArray? || s.IsObject? || s.IsSet? {
      OperandReadsBack(s.source);
    }
    if s.Equal? || s.NotEqual? {
      OperandReadsBack(s.a);
      OperandReadsBack(s.b);
    }
  }

  lemma CallReadsBack(func: nat, args: seq<Operand>, result: int)
    requires func < TWO_32 && OperandsFit(args) && 0 <= result < TWO_32 && |args| < TWO_24
    ensures AreWords(Fields(Call(func, args, result)))
    ensures FromFields(CALL, Fields(Call(func, args, result))) == Some(Call(func, args, result))
  {
    hide OperandWords, ToOperands, OperandsFit;
    OperandsReadBack(args);
    var ws := Fields(Call(func, args, result));
    assert ws[3..3 + |args|] == OperandWords(args);
  }

  lemma CallDynamicReadsBack(params: seq<int>, path: seq<Operand>, result: int)
    requires AreWords(params) && OperandsFit(path) && 0 <= result < TWO_32 && |params| < TWO_24 && |path| < TWO_24
    ensures AreWords(Fields(CallDynamic(params, path, result)))
    ensures FromFields(CALL_DYNAMIC, Fields(CallDynamic(params, path, result))) == Some(CallDynamic(params, path, result))
  {
    hide OperandWords, ToOperands, OperandsFit;
    OperandsReadBack(path);
    var ws, n := Fields(CallDynamic(params, path, result)), |params|;
    assert ws[2..n + 2] == params;
    assert ws[n + 2..] == [|path|] + OperandWords(path);
    assert ws[n + 2..][1..|path| + 1] == OperandWords(path);
  }

  /** The getters of a statement without nested blocks return what was written. */
  lemma FlatReadsBack(s: Stmt<nat>)
    requires FlatFits(s) && !s.BlockStmt? && !s.Not? && !s.Scan? && !s.With? && |Fields(s)| < TWO_24
    ensures AreWords(Fields(s)) && FromFields(TypeOf(s), Fields(s)) == Some(s)
  {
    if s.Call? {
      CallReadsBack(s.func, s.args, s.result);
    } else if s.CallDynamic? {
      CallDynamicReadsBack(s.params, s.path, s.result);
    } else {
      FixedWords(s);
      if |Fields(s)| == 1 {
        OneFieldReadsBack(s);
      } else {
        FixedReadsBack(s);
      }
    }
  }

  lemma OneFieldReadsBack(s: Stmt<nat>)
    requires FlatFits(s) && |Fields(s)| == 1 && !s.Call? && !s.CallDynamic? && AreWords(Fields(s))
    ensures FromFields(TypeOf(s), Fields(s)) == Some(s)
  {
    hide FromOneField;
    if s.IsArray? || s.IsObject? || s.IsSet? {
      OneOperandReadsBack(s);
    } else {
      OneLocalReadsBack(s);
    }
  }

  lemma OneOperandReadsBack(s: Stmt<nat>)
    requires (s.IsArray? || s.IsObject? || s.IsSet?) && OperandFits(s.source) && AreWords(Fields(s))
    ensures FromOneField(TypeOf(s), Fields(s)[0]) == Some(s)
  {
    hide OperandWord, ToOperand, OperandFits;
    OperandReadsBack(s.source);
  }

  lemma OneLocalReadsBack(s: Stmt<nat>)
    requires FlatFits(s) && |Fields(s)| == 1 && !s.Call? && !s.CallDynamic? && AreWords(Fields(s))
    requires !s.IsArray? && !s.IsObject? && !s.IsSet?
    ensures FromOneField(TypeOf(s), Fields(s)[0]) == Some(s)
  {
    hide OperandWord, ToOperand, OperandFits;
  }

  lemma FixedReadsBack(s: Stmt<nat>)
    requires FlatFits(s) && !s.BlockStmt? && !s.Not? && !s.Scan? && !s.With? && !s.Call? && !s.CallDynamic?
    requires |Fields(s)| != 1 && AreWords(Fields(s))
    ensures FromFields(TypeOf(s), Fields(s)) == Some(s)
  {
    hide FromOperands;
    if |Fields(s)| == 2 && !s.MakeArray? && !s.MakeNumberRef? {
      PairReadsBack(s);
    } else if s.Dot? || s.ObjectInsert? || s.ObjectInsertOnce? {
      TripleReadsBack(s);
    } else if s.MakeArray? {
      SignedReadsBack(s.capacity);
    } else if s.AssignInt? || s.MakeNumberInt? {
      Int64ReadsBack(s.value);
    }
  }

  lemma PairReadsBack(s: Stmt<nat>)
    requires FlatFits(s) && |Fields(s)| == 2 && AreWords(Fields(s)) && !s.MakeArray? && !s.MakeNumberRef?
    requires !s.Call? && !s.CallDynamic? && !s.With?
    ensures FromOperands(TypeOf(s), Fields(s)) == Some(s)
  {
    hide OperandWord, ToOperand, OperandFits;
    if s.Equal? || s.NotEqual? {
      OperandReadsBack(s.a);
      OperandReadsBack(s.b);
    } else {
      OperandReadsBack(if s.ArrayAppend? || s.SetAdd? then s.item else s.source);
    }
  }

  lemma TripleReadsBack(s: Stmt<nat>)
    requires (s.Dot? || s.ObjectInsert? || s.ObjectInsertOnce?) && FlatFits(s) && AreWords(Fields(s))
    ensures FromOperands(TypeOf(s), Fields(s)) == Some(s)
  {
    hide OperandWord, ToOperand, OperandFits;
    OperandReadsBack(s.key);
    OperandReadsBack(if s.Dot? then s.source else s.item);
  }

  // ---- Walking the bytes ----

  /** The unsigned words at an offset. */
  function UWordsAt(c: Bytes, off: int, n: int): (r: Option<seq<Word>>)
    ensures r.Some? ==> |r.value| == n
  {
    if off < 0 || n < 0 || off + 4 * n > |c| then None
    else Some(seq(n, i requires 0 <= i < n => U32(c, off + 4 * i)))
  }

  /** Reading one statement: its type decides what is read. The top two bits of the
      type are ignored. */
  function Decode(c: Bytes, at: int): Option<Stmt<nat>>
    decreases |c| - at, 1, 0
  {
    if at < 0 || at + 4 > |c| then None
    else
      var t, len := High(U32(c, at)) % 64, Low(U32(c, at));
      if t == BLOCK_STMT then
        var bs := DecodeBlocks(c, at + 4);
        if bs.None? then None else Some(BlockStmt(bs.value))
      else if t == NOT then
        var b := DecodeBlock(c, at + 4);
        if b.None? then None else Some(Not(b.value))
      else if t == SCAN then
        var ws, b := UWordsAt(c, at + 4, 3), DecodeBlock(c, at + 16);
        if ws.None? || b.None? then None else Some(Scan(ws.value[0], ws.value[1], ws.value[2], b.value))
      else if t == WITH then DecodeWith(c, at)
      else
        var ws := UWordsAt(c, at + 4, (len - 4) / 4);
        if ws.None? then None else FromFields(t, ws.value)
  }

  function DecodeWith(c: Bytes, at: int): Option<Stmt<nat>>
    requires 0 <= at
    decreases |c| - at, 0, 0
  {
    var ws := UWordsAt(c, at + 4, 3);
    if ws.None? then None
    else
      var path, item := UWordsAt(c, at + 16, ws.value[2]), ToOperand(ws.value[1]);
      var b := DecodeBlock(c, at + 16 + 4 * (ws.value[2] as int));
      if path.None? || item.None? || b.None? then None
      else Some(With(ws.value[0], ToSigned(path.value), item.value, b.value))
  }

  function DecodeBlock(c: Bytes, at: int): Option<Block<nat>>
    decreases |c| - at, 3, 0
  {
    if at < 0 || at + 8 > |c| then None
    else
      var ss := DecodeStmts(c, at + 8, U32(c, at + 4));
      if ss.None? then None else Some(Block(ss.value))
  }

  /** The next `n` statements: each one's length leads to the next. */
  function DecodeStmts(c: Bytes, at: int, n: nat): (r: Option<seq<Stmt<nat>>>)
    ensures r.Some? ==> |r.value| == n
    decreases |c| - at, 2, n
  {
    if n == 0 then Some([])
    else if at < 0 || at + 4 > |c| then None
    else
      var s, next := Decode(c, at), at + Low(U32(c, at));
      if s.None? || next > |c| then None
      else
        var rest := DecodeStmts(c, next, n - 1);
        if rest.None? then None else Some([s.value] + rest.value)
  }

  /** Where block `i` of several starts. */
  function BlockAt(c: Bytes, at: int, i: nat): Option<int> {
    if at < 0 || at + 12 + 4 * i > |c| then None else Some(at + U32(c, at + 8 + 4 * i))
  }

  function DecodeBlocks(c: Bytes, at: int): Option<seq<Block<nat>>>
    decreases |c| - at, 5, 0
  {
    if at < 0 || at + 8 > |c| then None else DecodeBlocksUpto(c, at, U32(c, at + 4))
  }

  /** The first `n` blocks; no block starts before the end of the offset table. */
  function DecodeBlocksUpto(c: Bytes, at: int, n: nat): (r: Option<seq<Block<nat>>>)
    ensures r.Some? ==> |r.value| == n
    decreases |c| - at, 4, n
  {
    if n == 0 then Some([])
    else
      var before, start := DecodeBlocksUpto(c, at, n - 1), BlockAt(c, at, n - 1);
      if before.None? || start.None? || start.value < at + 8 then None
      else
        var b := DecodeBlock(c, start.value);
        if b.None? then None else Some(before.value + [b.value])
  }

  // ---- What stands where ----

  lemma UWordsReadBack(c: Bytes, off: int, ws: seq<int>)
    requires At(c, off, Words(ws)) && AreWords(ws)
    ensures UWordsAt(c, off, |ws|) == Some(ws)
  {
    hide Be32, U32;
    forall i | 0 <= i < |ws| ensures U32(c, off + 4 * i) == ws[i] {
      var w := Be32(ws[i]);
      forall k | 0 <= k < 4 ensures w[k] == c[off + 4 * i + k] {
        assert Words(ws)[4 * i + k] == Be32(ws[(4 * i + k) / 4])[(4 * i + k) % 4];
      }
      Be32ReadBack(c, off + 4 * i, ws[i]);
    }
    assert UWordsAt(c, off, |ws|).value == ws;
  }

  lemma EncodeParts(s: Stmt<nat>)
    ensures Encode(s) == Be32(Pack(TypeOf(s), |Encode(s)|)) + Words(Fields(s)) + Nested(s)
    ensures |Encode(s)| == 4 + 4 * |Fields(s)| + |Nested(s)|
  {
    hide Pack, TypeOf, Fields, Nested, Words;
  }

  /** A statement's header word, its fields and its nested blocks. */
  lemma EncodedParts(c: Bytes, at: int, s: Stmt<nat>)
    requires At(c, at, Encode(s)) && |Encode(s)| < TWO_24
    ensures 0 <= at && at + |Encode(s)| <= |c| && |Encode(s)| == 4 + 4 * |Fields(s)| + |Nested(s)|
    ensures High(U32(c, at)) == TypeOf(s) && Low(U32(c, at)) == |Encode(s)|
    ensures At(c, at + 4, Words(Fields(s))) && At(c, at + 4 + 4 * |Fields(s)|, Nested(s))
    ensures |Nested(s)| < TWO_32 && |Fields(s)| < TWO_24 < TWO_32
  {
    hide Pack, TypeOf, Fields, Nested, Words, Encode, At, Be32, High;
    EncodeParts(s);
    var h, w := Be32(Pack(TypeOf(s), |Encode(s)|)), Words(Fields(s));
    AtSplit(c, at, h + w, Nested(s));
    AtSplit(c, at, h, w);
    PackReadsBack(TypeOf(s), |Encode(s)|);
    WordReadBack(c, at, Pack(TypeOf(s), |Encode(s)|));
    AtBounds(c, at, Encode(s));
  }

  lemma AtBounds(c: Bytes, at: int, w: Bytes)
    requires At(c, at, w)
    ensures 0 <= at && at + |w| <= |c|
  {
  }

  lemma WordReadBack(c: Bytes, at: int, v: int)
    requires At(c, at, Be32(v)) && 0 <= v < TWO_32
    ensures 0 <= at && at + 4 <= |c| && U32(c, at) == v
  {
    Be32ReadBack(c, at, v);
  }

  lemma {:induction false} StmtStands(c: Bytes, at: int, ss: seq<Stmt<nat>>, n: nat, k: nat)
    requires k < n <= |ss| && At(c, at, StmtBytes(ss, n))
    ensures At(c, at + |StmtBytes(ss, k)|, Encode(ss[k]))
    ensures |StmtBytes(ss, k + 1)| == |StmtBytes(ss, k)| + |Encode(ss[k])|
    decreases n
  {
    hide At, Encode;
    AtSplit(c, at, StmtBytes(ss, n - 1), Encode(ss[n - 1]));
    if k < n - 1 {
      StmtStands(c, at, ss, n - 1, k);
    }
  }

  lemma {:induction false} BlockStands(c: Bytes, at: int, bs: seq<Block<nat>>, n: nat, k: nat)
    requires k < n <= |bs| && At(c, at, BlockBytes(bs, n))
    ensures At(c, at + |BlockBytes(bs, k)|, EncodeBlock(bs[k]))
    decreases n
  {
    hide At, EncodeBlock;
    AtSplit(c, at, BlockBytes(bs, n - 1), EncodeBlock(bs[n - 1]));
    if k < n - 1 {
      BlockStands(c, at, bs, n - 1, k);
    }
  }

  lemma {:induction false} StmtBytesAreLong(ss: seq<Stmt<nat>>, n: nat)
    requires n <= |ss|
    ensures |StmtBytes(ss, n)| >= 4 * n
  {
    hide Encode;
    if n > 0 {
      StmtBytesAreLong(ss, n - 1);
    }
  }

  lemma BlockIs(b: Block<nat>)
    ensures EncodeBlock(b) == Be32(8 + |StmtBytes(b.stmts, |b.stmts|)|) + Be32(|b.stmts|) + StmtBytes(b.stmts, |b.stmts|)
  {
    hide StmtBytes;
  }

  /** A block's statement count and its statements. */
  lemma BlockParts(c: Bytes, at: int, b: Block<nat>)
    requires At(c, at, EncodeBlock(b)) && |EncodeBlock(b)| < TWO_32
    ensures 0 <= at && at + 8 <= |c| && U32(c, at + 4) == |b.stmts|
    ensures At(c, at + 8, StmtBytes(b.stmts, |b.stmts|))
    ensures at + |EncodeBlock(b)| <= |c| && |EncodeBlock(b)| == 8 + |StmtBytes(b.stmts, |b.stmts|)|
  {
    hide At, EncodeBlock, StmtBytes, Be32;
    BlockIs(b);
    var body, n := StmtBytes(b.stmts, |b.stmts|), |b.stmts|;
    AtBounds(c, at, EncodeBlock(b));
    AtSplit(c, at, Be32(8 + |body|) + Be32(n), body);
    AtSplit(c, at, Be32(8 + |body|), Be32(n));
    StmtBytesAreLong(b.stmts, n);
    WordReadBack(c, at + 4, n);
  }

  lemma BlocksAre(bs: seq<Block<nat>>)
    ensures var n, body := |bs|, BlockBytes(bs, |bs|);
            EncodeBlocks(bs) == Be32(8 + 4 * n + |body|) + Be32(n) + Words(BlockOffsets(bs, n)) + body
  {
    hide BlockBytes, BlockOffsets, Words;
  }

  /** The number of blocks, and where each of them starts. */
  lemma BlocksParts(c: Bytes, at: int, bs: seq<Block<nat>>)
    requires At(c, at, EncodeBlocks(bs)) && |EncodeBlocks(bs)| < TWO_32
    ensures 0 <= at && at + 8 <= |c| && U32(c, at + 4) == |bs|
    ensures forall i | 0 <= i < |bs| :: BlockAt(c, at, i) == Some(at + 8 + 4 * |bs| + |BlockBytes(bs, i)|)
    ensures forall i | 0 <= i < |bs| :: At(c, at + 8 + 4 * |bs| + |BlockBytes(bs, i)|, EncodeBlock(bs[i]))
  {
    hide At, EncodeBlocks, BlockBytes, Be32, Words, UWordsAt, BlockAt, EncodeBlock, BlockOffsets;
    BlocksAre(bs);
    var n, body, offsets := |bs|, BlockBytes(bs, |bs|), BlockOffsets(bs, |bs|);
    var h := Be32(8 + 4 * n + |body|);
    AtBounds(c, at, EncodeBlocks(bs));
    AtSplit(c, at, h + Be32(n) + Words(offsets), body);
    AtSplit(c, at, h + Be32(n), Words(offsets));
    AtSplit(c, at, h, Be32(n));
    WordReadBack(c, at + 4, n);
    OffsetsAreWords(bs, 8 + 4 * n + |body|);
    UWordsReadBack(c, at + 8, offsets);
    forall i | 0 <= i < n
      ensures BlockAt(c, at, i) == Some(at + 8 + 4 * n + |BlockBytes(bs, i)|)
      ensures At(c, at + 8 + 4 * n + |BlockBytes(bs, i)|, EncodeBlock(bs[i]))
    {
      OffsetIs(c, at, bs, i);
      BlockStands(c, at + 8 + 4 * n, bs, n, i);
    }
  }

  lemma OffsetIs(c: Bytes, at: int, bs: seq<Block<nat>>, i: nat)
    requires i < |bs| && UWordsAt(c, at + 8, |bs|) == Some(BlockOffsets(bs, |bs|)) && 0 <= at
    ensures BlockAt(c, at, i) == Some(at + 8 + 4 * |bs| + |BlockBytes(bs, i)|)
  {
    hide BlockBytes;
    assert UWordsAt(c, at + 8, |bs|).value[i] == U32(c, at + 8 + 4 * i);
  }

  lemma {:induction false} BlockBytesGrow(bs: seq<Block<nat>>, i: nat, n: nat)
    requires i <= n <= |bs|
    ensures |BlockBytes(bs, i)| <= |BlockBytes(bs, n)|
  {
    hide EncodeBlock;
    if i < n {
      BlockBytesGrow(bs, i, n - 1);
    }
  }

  lemma OffsetsAreWords(bs: seq<Block<nat>>, total: nat)
    requires total == 8 + 4 * |bs| + |BlockBytes(bs, |bs|)| < TWO_32
    ensures AreWords(BlockOffsets(bs, |bs|))
  {
    hide BlockBytes;
    forall i | 0 <= i < |bs| ensures |BlockBytes(bs, i)| <= |BlockBytes(bs, |bs|)| {
      BlockBytesGrow(bs, i, |bs|);
    }
  }

  // ---- The walk recovers the statements ----

  lemma FitsParts(s: Stmt<nat>)
    requires Fits(s)
    ensures FlatFits(s) && |Encode(s)| < TWO_24
    ensures s.BlockStmt? ==> forall i | 0 <= i < |s.blocks| :: BlockFits(s.blocks[i])
    ensures s.Not? || s.Scan? || s.With? ==> BlockFits(s.block)
  {
  }

  lemma BlockFitsParts(b: Block<nat>)
    requires BlockFits(b)
    ensures |EncodeBlock(b)| < TWO_32 && forall i | 0 <= i < |b.stmts| :: Fits(b.stmts[i])
  {
  }

  lemma NestedIs(s: Stmt<nat>)
    ensures s.BlockStmt? ==> Nested(s) == EncodeBlocks(s.blocks) && Fields(s) == []
    ensures s.Not? || s.Scan? || s.With? ==> Nested(s) == EncodeBlock(s.block)
    ensures s.Not? ==> Fields(s) == []
    ensures s.With? ==> |Fields(s)| == 3 + |s.segments|
    ensures !s.BlockStmt? && !s.Not? && !s.Scan? && !s.With? ==> Nested(s) == []
  {
    hide EncodeBlocks, EncodeBlock, OperandWords;
  }

  /** Decoding a statement from its encoding gives the statement back: type,
      operands, paths and all nested blocks. */
  lemma {:induction false} DecodeCorrect(c: Bytes, at: int, s: Stmt<nat>)
    requires At(c, at, Encode(s)) && Fits(s)
    ensures Decode(c, at) == Some(s)
    decreases s, 1, 0
  {
    hide *;
    FitsParts(s);
    EncodedParts(c, at, s);
    NestedIs(s);
    if s.BlockStmt? {
      BlocksDecodeCorrect(c, at + 4, s.blocks);
      DecodeBlockStmt(c, at, s);
    } else if s.Not? {
      BlockDecodeCorrect(c, at + 4, s.block);
      DecodeNot(c, at, s);
    } else if s.Scan? {
      ScanFields(c, at, s);
      BlockDecodeCorrect(c, at + 16, s.block);
      DecodeScan(c, at, s);
    } else if s.With? {
      WithFields(c, at, s);
      BlockDecodeCorrect(c, at + 16 + 4 * |s.segments|, s.block);
      DecodeWithStmt(c, at, s);
    } else {
      FlatReadsBack(s);
      UWordsReadBack(c, at + 4, Fields(s));
      DecodeFlat(c, at, s);
    }
  }

  lemma DecodeBlockStmt(c: Bytes, at: int, s: Stmt<nat>)
    requires s.BlockStmt? && 0 <= at && at + 4 <= |c| && High(U32(c, at)) == TypeOf(s)
    requires DecodeBlocks(c, at + 4) == Some(s.blocks)
    ensures Decode(c, at) == Some(s)
  {
    hide DecodeBlocks, DecodeBlock, High, U32;
  }

  lemma DecodeNot(c: Bytes, at: int, s: Stmt<nat>)
    requires s.Not? && 0 <= at && at + 4 <= |c| && High(U32(c, at)) == TypeOf(s)
    requires DecodeBlock(c, at + 4) == Some(s.block)
    ensures Decode(c, at) == Some(s)
  {
    hide DecodeBlocks, DecodeBlock, High, U32;
  }

  lemma ScanFields(c: Bytes, at: int, s: Stmt<nat>)
    requires s.Scan? && FlatFits(s) && At(c, at + 4, Words(Fields(s)))
    ensures |Fields(s)| == 3 && UWordsAt(c, at + 4, 3) == Some([s.local, s.keyLocal, s.valueLocal])
  {
    hide Words, At, UWordsAt;
    FixedWords(s);
    UWordsReadBack(c, at + 4, Fields(s));
  }

  lemma DecodeScan(c: Bytes, at: int, s: Stmt<nat>)
    requires s.Scan? && 0 <= at && at + 4 <= |c| && High(U32(c, at)) == TypeOf(s)
    requires UWordsAt(c, at + 4, 3) == Some([s.local, s.keyLocal, s.valueLocal]) && DecodeBlock(c, at + 16) == Some(s.block)
    ensures Decode(c, at) == Some(s)
  {
    hide DecodeBlocks, DecodeBlock, High, U32, UWordsAt;
  }

  /** The words of a with statement: the local, the value, and the path. */
  lemma WithFields(c: Bytes, at: int, s: Stmt<nat>)
    requires s.With? && FlatFits(s) && At(c, at + 4, Words(Fields(s))) && |s.segments| < TWO_32
    ensures |Fields(s)| == 3 + |s.segments|
    ensures 0 <= OperandWord(s.item) < TWO_32 && ToOperand(OperandWord(s.item)) == Some(s.item)
    ensures UWordsAt(c, at + 4, 3) == Some([s.local, OperandWord(s.item), |s.segments|])
    ensures UWordsAt(c, at + 16, |s.segments|) == Some(Unsigneds(s.segments)) && ToSigned(Unsigneds(s.segments)) == s.segments
  {
    hide At, OperandWord, ToOperand, OperandFits, UWordsAt, Words;
    OperandReadsBack(s.item);
    var head, path := [s.local, OperandWord(s.item), |s.segments|], Unsigneds(s.segments);
    assert Fields(s) == head + path;
    WordsConcat(head, path);
    AtSplit(c, at + 4, Words(head), Words(path));
    UWordsReadBack(c, at + 4, head);
    UWordsReadBack(c, at + 16, path);
    forall i | 0 <= i < |s.segments| ensures Signed(path[i]) == s.segments[i] {
      SignedReadsBack(s.segments[i]);
    }
    assert ToSigned(path) == s.segments;
  }

  lemma WordsConcat(vs: seq<int>, ws: seq<int>)
    ensures Words(vs + ws) == Words(vs) + Words(ws)
  {
    hide Be32;
    forall i | 0 <= i < 4 * |vs + ws| ensures Words(vs + ws)[i] == (Words(vs) + Words(ws))[i] {
      if i >= 4 * |vs| {
        assert i / 4 == |vs| + (i - 4 * |vs|) / 4 && i % 4 == (i - 4 * |vs|) % 4;
        assert (vs + ws)[i / 4] == ws[(i - 4 * |vs|) / 4];
      } else {
        assert (vs + ws)[i / 4] == vs[i / 4];
      }
    }
  }

  lemma DecodeWithStmt(c: Bytes, at: int, s: Stmt<nat>)
    requires s.With? && 0 <= at && at + 4 <= |c| && High(U32(c, at)) == TypeOf(s) && |s.segments| < TWO_32
    requires 0 <= OperandWord(s.item) < TWO_32 && ToOperand(OperandWord(s.item)) == Some(s.item)
    requires 0 <= s.local < TWO_32 && UWordsAt(c, at + 4, 3) == Some([s.local, OperandWord(s.item), |s.segments|])
    requires UWordsAt(c, at + 16, |s.segments|) == Some(Unsigneds(s.segments)) && ToSigned(Unsigneds(s.segments)) == s.segments
    requires DecodeBlock(c, at + 16 + 4 * |s.segments|) == Some(s.block)
    ensures Decode(c, at) == Some(s)
  {
    hide DecodeBlocks, DecodeBlock, High, U32, UWordsAt, OperandWord, ToOperand, Unsigneds, ToSigned;
  }

  lemma DecodeFlat(c: Bytes, at: int, s: Stmt<nat>)
    requires !s.BlockStmt? && !s.Not? && !s.Scan? && !s.With? && 0 <= at && at + 4 <= |c|
    requires High(U32(c, at)) == TypeOf(s) && Low(U32(c, at)) == 4 + 4 * |Fields(s)| && AreWords(Fields(s))
    requires UWordsAt(c, at + 4, |Fields(s)|) == Some(Fields(s)) && FromFields(TypeOf(s), Fields(s)) == Some(s)
    ensures Decode(c, at) == Some(s)
  {
    hide DecodeBlocks, DecodeBlock, High, Low, U32, UWordsAt, Fields, FromFields;
  }

  lemma {:induction false} BlockDecodeCorrect(c: Bytes, at: int, b: Block<nat>)
    requires At(c, at, EncodeBlock(b)) && BlockFits(b)
    ensures DecodeBlock(c, at) == Some(b)
    decreases b, 0, 0
  {
    hide At, Fits, EncodeBlock, StmtBytes, BlockFits, U32, DecodeStmts;
    BlockFitsParts(b);
    BlockParts(c, at, b);
    NoStmtBytes(b.stmts);
    StmtsDecodeCorrect(c, at + 8, b.stmts, 0);
    assert b.stmts[0..] == b.stmts;
  }

  lemma NoStmtBytes(ss: seq<Stmt<nat>>)
    ensures StmtBytes(ss, 0) == []
  {
  }

  lemma DecodeStmtsStep(c: Bytes, at: int, n: nat)
    requires n > 0 && 0 <= at && at + 4 <= |c| && at + Low(U32(c, at)) <= |c| && Decode(c, at).Some?
    ensures var rest := DecodeStmts(c, at + Low(U32(c, at)), n - 1);
            DecodeStmts(c, at, n) == if rest.None? then None else Some([Decode(c, at).value] + rest.value)
    ensures DecodeStmts(c, at, 0) == Some([])
  {
    hide Decode, U32, Low;
  }

  lemma {:induction false} StmtsDecodeCorrect(c: Bytes, at: int, ss: seq<Stmt<nat>>, k: nat)
    requires k <= |ss| && At(c, at, StmtBytes(ss, |ss|)) && forall i | 0 <= i < |ss| :: Fits(ss[i])
    ensures DecodeStmts(c, at + |StmtBytes(ss, k)|, |ss| - k) == Some(ss[k..])
    decreases ss, 0, |ss| - k
  {
    hide At, Fits, Encode, StmtBytes, U32, Decode, High, Low;
    if k < |ss| {
      hide DecodeStmts;
      StmtStands(c, at, ss, |ss|, k);
      FitsParts(ss[k]);
      EncodedParts(c, at + |StmtBytes(ss, k)|, ss[k]);
      DecodeCorrect(c, at + |StmtBytes(ss, k)|, ss[k]);
      DecodeStmtsStep(c, at + |StmtBytes(ss, k)|, |ss| - k);
      StmtsDecodeCorrect(c, at, ss, k + 1);
      assert ss[k..] == [ss[k]] + ss[k + 1..];
    }
  }

  lemma {:induction false} BlocksDecodeCorrect(c: Bytes, at: int, bs: seq<Block<nat>>)
    requires At(c, at, EncodeBlocks(bs)) && |EncodeBlocks(bs)| < TWO_32 && forall i | 0 <= i < |bs| :: BlockFits(bs[i])
    ensures DecodeBlocks(c, at) == Some(bs)
    decreases bs, 1, 0
  {
    hide At, BlockFits, EncodeBlocks, BlockBytes, EncodeBlock, U32, BlockAt, DecodeBlocksUpto;
    BlocksParts(c, at, bs);
    BlocksDecodeUpto(c, at, bs, |bs|);
    assert bs[..|bs|] == bs;
  }

  lemma {:induction false} BlocksDecodeUpto(c: Bytes, at: int, bs: seq<Block<nat>>, n: nat)
    requires n <= |bs| && 0 <= at && forall i | 0 <= i < |bs| :: BlockFits(bs[i])
    requires forall i | 0 <= i < |bs| :: BlockAt(c, at, i) == Some(at + 8 + 4 * |bs| + |BlockBytes(bs, i)|)
    requires forall i | 0 <= i < |bs| :: At(c, at + 8 + 4 * |bs| + |BlockBytes(bs, i)|, EncodeBlock(bs[i]))
    ensures DecodeBlocksUpto(c, at, n) == Some(bs[..n])
    decreases bs, 0, n
  {
    hide At, BlockFits, BlockBytes, EncodeBlock, BlockAt, DecodeBlock;
    if n > 0 {
      BlocksDecodeUpto(c, at, bs, n - 1);
      BlockDecodeCorrect(c, at + 8 + 4 * |bs| + |BlockBytes(bs, n - 1)|, bs[n - 1]);
      assert bs[..n] == bs[..n - 1] + [bs[n - 1]];
    }
  }
}
