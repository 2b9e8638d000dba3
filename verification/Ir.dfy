/** The intermediate representation of a policy. `F` is how a called function is
    named: by its name before compilation, by its index afterwards. */
module Ir {
  import opened ByteCodec

  datatype Operand = Local(local: int) | BoolConst(truth: bool) | StringIndex(index: int)

  datatype Block<F> = Block(stmts: seq<Stmt<F>>)

  datatype Stmt<F> =
    | Nop
    | ArrayAppend(item: Operand, target: int)
    | AssignInt(value: int, target: int)
    | AssignVar(source: Operand, target: int)
    | AssignVarOnce(source: Operand, target: int)
    | BlockStmt(blocks: seq<Block<F>>)
    | Break(levels: int)
    | Call(func: F, args: seq<Operand>, result: int)
    | CallDynamic(params: seq<int>, path: seq<Operand>, result: int)
    | Dot(source: Operand, key: Operand, target: int)
    | Equal(a: Operand, b: Operand)
    | IsArray(source: Operand)
    | IsDefined(local: int)
    | IsObject(source: Operand)
    | IsSet(source: Operand)
    | IsUndefined(local: int)
    | Len(source: Operand, target: int)
    | MakeArray(capacity: int, target: int)
    | MakeNull(target: int)
    | MakeNumberInt(value: int, target: int)
    | MakeNumberRef(text: int, target: int)
    | MakeObject(target: int)
    | MakeSet(target: int)
    | Not(block: Block<F>)
    | NotEqual(a: Operand, b: Operand)
    | ObjectInsert(key: Operand, item: Operand, target: int)
    | ObjectInsertOnce(key: Operand, item: Operand, target: int)
    | ObjectMerge(left: int, right: int, target: int)
    | ResetLocal(target: int)
    | ResultSetAdd(local: int)
    | ReturnLocal(local: int)
    | Scan(local: int, keyLocal: int, valueLocal: int, block: Block<F>)
    | SetAdd(item: Operand, target: int)
    | With(local: int, segments: seq<int>, item: Operand, block: Block<F>)
  {
    /** The blocks inside a statement. */
    function Inner(): seq<Block<F>> {
      match this
      case BlockStmt(blocks) => blocks
      case Not(block) => [block]
      case Scan(_, _, _, block) => [block]
      case With(_, _, _, block) => [block]
      case _ => []
    }
  }

  /** A builtin, or a function with its blocks. The first two parameters of every
      planned function are the input and the data document. */
  datatype Func<F> =
    | Builtin(name: string)
    | Func(name: string, params: seq<int>, ret: int, blocks: seq<Block<F>>)

  datatype Plan<F> = Plan(name: string, blocks: seq<Block<F>>)

  /** Every call goes to a function with an index below `n`. */
  predicate CallsBelow(s: Stmt<nat>, n: nat)
    decreases s, 1
  {
    && (s.Call? ==> s.func < n)
    && match s
       case BlockStmt(blocks) => forall i | 0 <= i < |blocks| :: BlockCallsBelow(blocks[i], n)
       case Not(block) => BlockCallsBelow(block, n)
       case Scan(_, _, _, block) => BlockCallsBelow(block, n)
       case With(_, _, _, block) => BlockCallsBelow(block, n)
       case _ => true
  }

  predicate BlockCallsBelow(b: Block<nat>, n: nat)
    decreases b, 0
  {
    forall i | 0 <= i < |b.stmts| :: CallsBelow(b.stmts[i], n)
  }

  predicate FuncCallsBelow(f: Func<nat>, n: nat) {
    f.Func? ==> forall i | 0 <= i < |f.blocks| :: BlockCallsBelow(f.blocks[i], n)
  }
}
