/** The compiler's resolution of function names: a call may only name a builtin or a
    function that has been compiled before. */
module Compilers {
  import opened ByteCodec
  import opened Ir

  /** compileBlock's view of one statement: names become indexes. */
  function Resolve(s: Stmt<string>, index: map<string, nat>): Option<Stmt<nat>>
    decreases s, 1
  {
    match s
    case Nop => Some(Nop)
    case ArrayAppend(item, target) => Some(ArrayAppend(item, target))
    case AssignInt(value, target) => Some(AssignInt(value, target))
    case AssignVar(source, target) => Some(AssignVar(source, target))
    case AssignVarOnce(source, target) => Some(AssignVarOnce(source, target))
    case BlockStmt(blocks) =>
      var r := ResolveBlocks(blocks, |blocks|, index);
      if r.None? then None else Some(BlockStmt(r.value))
    case Break(levels) => Some(Break(levels))
    case Call(func, args, result) => if func in index then Some(Call(index[func], args, result)) else None
    case CallDynamic(params, path, result) => Some(CallDynamic(params, path, result))
    case Dot(source, key, target) => Some(Dot(source, key, target))
    case Equal(a, b) => Some(Equal(a, b))
    case IsArray(source) => Some(IsArray(source))
    case IsDefined(local) => Some(IsDefined(local))
    case IsObject(source) => Some(IsObject(source))
    case IsSet(source) => Some(IsSet(source))
    case IsUndefined(local) => Some(IsUndefined(local))
    case Len(source, target) => Some(Len(source, target))
    case MakeArray(capacity, target) => Some(MakeArray(capacity, target))
    case MakeNull(target) => Some(MakeNull(target))
    case MakeNumberInt(value, target) => Some(MakeNumberInt(value, target))
    case MakeNumberRef(text, target) => Some(MakeNumberRef(text, target))
    case MakeObject(target) => Some(MakeObject(target))
    case MakeSet(target) => Some(MakeSet(target))
    case Not(block) =>
      var r := ResolveBlock(block, index);
      if r.None? then None else Some(Not(r.value))
    case NotEqual(a, b) => Some(NotEqual(a, b))
    case ObjectInsert(key, item, target) => Some(ObjectInsert(key, item, target))
    case ObjectInsertOnce(key, item, target) => Some(ObjectInsertOnce(key, item, target))
    case ObjectMerge(left, right, target) => Some(ObjectMerge(left, right, target))
    case ResetLocal(target) => Some(ResetLocal(target))
    case ResultSetAdd(local) => Some(ResultSetAdd(local))
    case ReturnLocal(local) => Some(ReturnLocal(local))
    case Scan(local, keyLocal, valueLocal, block) =>
      var r := ResolveBlock(block, index);
      if r.None? then None else Some(Scan(local, keyLocal, valueLocal, r.value))
    case SetAdd(item, target) => Some(SetAdd(item, target))
    case With(local, segments, item, block) =>
      var r := ResolveBlock(block, index);
      if r.None? then None else Some(With(local, segments, item, r.value))
  }

  function ResolveBlock(b: Block<string>, index: map<string, nat>): Option<Block<nat>>
    decreases b, 0
  {
    var r := ResolveStmts(b.stmts, |b.stmts|, index);
    if r.None? then None else Some(Block(r.value))
  }

  function ResolveStmts(ss: seq<Stmt<string>>, n: nat, index: map<string, nat>): (r: Option<seq<Stmt<nat>>>)
    requires n <= |ss|
    ensures r.Some? ==> |r.value| == n
    decreases ss, n
  {
    if n == 0 then Some([])
    else
      var before := ResolveStmts(ss, n - 1, index);
      var last := Resolve(ss[n - 1], index);
      if before.None? || last.None? then None else Some(before.value + [last.value])
  }

  function ResolveBlocks(bs: seq<Block<string>>, n: nat, index: map<string, nat>): (r: Option<seq<Block<nat>>>)
    requires n <= |bs|
    ensures r.Some? ==> |r.value| == n
    decreases bs, n
  {
    if n == 0 then Some([])
    else
      var before := ResolveBlocks(bs, n - 1, index);
      var last := ResolveBlock(bs[n - 1], index);
      if before.None? || last.None? then None else Some(before.value + [last.value])
  }

  /** compileFunc. */
  function ResolveFunc(f: Func<string>, index: map<string, nat>): Option<Func<nat>>
    requires f.Func?
  {
    var r := ResolveBlocks(f.blocks, |f.blocks|, index);
    if f.params == [] || r.None? then None else Some(Func(f.name, f.params, f.ret, r.value))
  }

  ghost predicate IndexBelow(index: map<string, nat>, n: nat) {
    forall name | name in index :: index[name] < n
  }

  // ---- Resolved statements call only what the index holds ----

  lemma {:induction false} ResolveCallsBelow(s: Stmt<string>, index: map<string, nat>, n: nat)
    requires IndexBelow(index, n) && Resolve(s, index).Some?
    ensures CallsBelow(Resolve(s, index).value, n)
    decreases s, 1
  {
    if s.BlockStmt? {
      ResolveBlocksCallBelow(s.blocks, |s.blocks|, index, n);
    } else if s.Not? || s.Scan? || s.With? {
      ResolveBlockCallsBelow(s.block, index, n);
    }
  }

  lemma {:induction false} ResolveBlockCallsBelow(b: Block<string>, index: map<string, nat>, n: nat)
    requires IndexBelow(index, n) && ResolveBlock(b, index).Some?
    ensures BlockCallsBelow(ResolveBlock(b, index).value, n)
    decreases b, 0
  {
    ResolveStmtsCallBelow(b.stmts, |b.stmts|, index, n);
  }

  lemma {:induction false} ResolveStmtsCallBelow(ss: seq<Stmt<string>>, k: nat, index: map<string, nat>, n: nat)
    requires k <= |ss| && IndexBelow(index, n) && ResolveStmts(ss, k, index).Some?
    ensures forall i | 0 <= i < k :: CallsBelow(ResolveStmts(ss, k, index).value[i], n)
    decreases ss, k
  {
    hide Resolve, CallsBelow;
    if k > 0 {
      ResolveStmtsCallBelow(ss, k - 1, index, n);
      ResolveCallsBelow(ss[k - 1], index, n);
    }
  }

  lemma {:induction false} ResolveBlocksCallBelow(bs: seq<Block<string>>, k: nat, index: map<string, nat>, n: nat)
    requires k <= |bs| && IndexBelow(index, n) && ResolveBlocks(bs, k, index).Some?
    ensures forall i | 0 <= i < k :: BlockCallsBelow(ResolveBlocks(bs, k, index).value[i], n)
    decreases bs, k
  {
    hide ResolveBlock, BlockCallsBelow;
    if k > 0 {
      ResolveBlocksCallBelow(bs, k - 1, index, n);
      ResolveBlockCallsBelow(bs[k - 1], index, n);
    }
  }

  // ---- Compilation only renames ----

  /** A compiled statement with the functions' names put back. */
  function Named(s: Stmt<nat>, funcs: seq<Func<nat>>): Stmt<string>
    decreases s, 1
  {
    match s
    case Nop => Nop
    case ArrayAppend(item, target) => ArrayAppend(item, target)
    case AssignInt(value, target) => AssignInt(value, target)
    case AssignVar(source, target) => AssignVar(source, target)
    case AssignVarOnce(source, target) => AssignVarOnce(source, target)
    case BlockStmt(blocks) => BlockStmt(seq(|blocks|, i requires 0 <= i < |blocks| => NamedBlock(blocks[i], funcs)))
    case Break(levels) => Break(levels)
    case Call(func, args, result) => Call(if func < |funcs| then funcs[func].name else "", args, result)
    case CallDynamic(params, path, result) => CallDynamic(params, path, result)
    case Dot(source, key, target) => Dot(source, key, target)
    case Equal(a, b) => Equal(a, b)
    case IsArray(source) => IsArray(source)
    case IsDefined(local) => IsDefined(local)
    case IsObject(source) => IsObject(source)
    case IsSet(source) => IsSet(source)
    case IsUndefined(local) => IsUndefined(local)
    case Len(source, target) => Len(source, target)
    case MakeArray(capacity, target) => MakeArray(capacity, target)
    case MakeNull(target) => MakeNull(target)
    case MakeNumberInt(value, target) => MakeNumberInt(value, target)
    case MakeNumberRef(text, target) => MakeNumberRef(text, target)
    case MakeObject(target) => MakeObject(target)
    case MakeSet(target) => MakeSet(target)
    case Not(block) => Not(NamedBlock(block, funcs))
    case NotEqual(a, b) => NotEqual(a, b)
    case ObjectInsert(key, item, target) => ObjectInsert(key, item, target)
    case ObjectInsertOnce(key, item, target) => ObjectInsertOnce(key, item, target)
    case ObjectMerge(left, right, target) => ObjectMerge(left, right, target)
    case ResetLocal(target) => ResetLocal(target)
    case ResultSetAdd(local) => ResultSetAdd(local)
    case ReturnLocal(local) => ReturnLocal(local)
    case Scan(local, keyLocal, valueLocal, block) => Scan(local, keyLocal, valueLocal, NamedBlock(block, funcs))
    case SetAdd(item, target) => SetAdd(item, target)
    case With(local, segments, item, block) => With(local, segments, item, NamedBlock(block, funcs))
  }

  function NamedBlock(b: Block<nat>, funcs: seq<Func<nat>>): Block<string>
    decreases b, 0
  {
    Block(seq(|b.stmts|, i requires 0 <= i < |b.stmts| => Named(b.stmts[i], funcs)))
  }

  /** The index finds every function under its own name. */
  ghost predicate IndexNames(index: map<string, nat>, funcs: seq<Func<nat>>) {
    forall name | name in index :: index[name] < |funcs| && funcs[index[name]].name == name
  }

  lemma {:induction false} ResolveNames(s: Stmt<string>, index: map<string, nat>, funcs: seq<Func<nat>>)
    requires IndexNames(index, funcs) && Resolve(s, index).Some?
    ensures Named(Resolve(s, index).value, funcs) == s
    decreases s, 1
  {
    hide Resolve, Named;
    if s.BlockStmt? {
      ResolveParts(s, index);
      ResolveBlocksName(s.blocks, |s.blocks|, index, funcs);
      BlockStmtNames(s, index, funcs);
    } else if s.Not? || s.Scan? || s.With? {
      ResolveParts(s, index);
      ResolveBlockNames(s.block, index, funcs);
      NestedNames(s, index, funcs);
    } else {
      FlatNames(s, index, funcs);
    }
  }

  lemma BlockStmtNames(s: Stmt<string>, index: map<string, nat>, funcs: seq<Func<nat>>)
    requires s.BlockStmt? && ResolveBlocks(s.blocks, |s.blocks|, index).Some?
    requires forall i | 0 <= i < |s.blocks| ::
               NamedBlock(ResolveBlocks(s.blocks, |s.blocks|, index).value[i], funcs) == s.blocks[i]
    ensures Resolve(s, index).Some? && Named(Resolve(s, index).value, funcs) == s
  {
    hide ResolveBlocks, NamedBlock;
    assert Named(Resolve(s, index).value, funcs).blocks == s.blocks;
  }

  lemma NestedNames(s: Stmt<string>, index: map<string, nat>, funcs: seq<Func<nat>>)
    requires (s.Not? || s.Scan? || s.With?) && ResolveBlock(s.block, index).Some?
    requires NamedBlock(ResolveBlock(s.block, index).value, funcs) == s.block
    ensures Resolve(s, index).Some? && Named(Resolve(s, index).value, funcs) == s
  {
    hide ResolveBlock, NamedBlock;
  }

  lemma FlatNames(s: Stmt<string>, index: map<string, nat>, funcs: seq<Func<nat>>)
    requires !s.BlockStmt? && !s.Not? && !s.Scan? && !s.With? && IndexNames(index, funcs) && Resolve(s, index).Some?
    ensures Named(Resolve(s, index).value, funcs) == s
  {
  }

  lemma {:induction false} ResolveBlockNames(b: Block<string>, index: map<string, nat>, funcs: seq<Func<nat>>)
    requires IndexNames(index, funcs) && ResolveBlock(b, index).Some?
    ensures NamedBlock(ResolveBlock(b, index).value, funcs) == b
    decreases b, 0
  {
    ResolveStmtsName(b.stmts, |b.stmts|, index, funcs);
    assert NamedBlock(ResolveBlock(b, index).value, funcs).stmts == b.stmts;
  }

  lemma {:induction false} ResolveStmtsName(ss: seq<Stmt<string>>, k: nat, index: map<string, nat>, funcs: seq<Func<nat>>)
    requires k <= |ss| && IndexNames(index, funcs) && ResolveStmts(ss, k, index).Some?
    ensures forall i | 0 <= i < k :: Named(ResolveStmts(ss, k, index).value[i], funcs) == ss[i]
    decreases ss, k
  {
    hide Resolve, Named, IndexNames;
    if k > 0 {
      ResolveStmtsName(ss, k - 1, index, funcs);
      ResolveNames(ss[k - 1], index, funcs);
    }
  }

  lemma {:induction false} ResolveBlocksName(bs: seq<Block<string>>, k: nat, index: map<string, nat>, funcs: seq<Func<nat>>)
    requires k <= |bs| && IndexNames(index, funcs) && ResolveBlocks(bs, k, index).Some?
    ensures forall i | 0 <= i < k :: NamedBlock(ResolveBlocks(bs, k, index).value[i], funcs) == bs[i]
    decreases bs, k
  {
    hide ResolveBlock, NamedBlock, IndexNames;
    if k > 0 {
      ResolveBlocksName(bs, k - 1, index, funcs);
      ResolveBlockNames(bs[k - 1], index, funcs);
    }
  }

  // ---- Which statements compile ----

  /** Every called function has one of these names. */
  predicate Known(s: Stmt<string>, names: set<string>)
    decreases s, 1
  {
    && (s.Call? ==> s.func in names)
    && match s
       case BlockStmt(blocks) => forall i | 0 <= i < |blocks| :: BlockKnown(blocks[i], names)
       case Not(block) => BlockKnown(block, names)
       case Scan(_, _, _, block) => BlockKnown(block, names)
       case With(_, _, _, block) => BlockKnown(block, names)
       case _ => true
  }

  predicate BlockKnown(b: Block<string>, names: set<string>)
    decreases b, 0
  {
    forall i | 0 <= i < |b.stmts| :: Known(b.stmts[i], names)
  }

  /** A statement compiles exactly when the index holds every function it calls. */
  lemma {:induction false} ResolvesIfKnown(s: Stmt<string>, index: map<string, nat>)
    ensures Resolve(s, index).Some? <==> Known(s, index.Keys)
    decreases s, 1
  {
    hide Resolve, Known;
    KnownParts(s, index.Keys);
    ResolveParts(s, index);
    if s.BlockStmt? {
      BlocksResolveIfKnown(s.blocks, |s.blocks|, index);
    } else if s.Not? || s.Scan? || s.With? {
      BlockResolvesIfKnown(s.block, index);
    }
  }

  lemma KnownParts(s: Stmt<string>, names: set<string>)
    ensures s.BlockStmt? ==> (Known(s, names) <==> forall i | 0 <= i < |s.blocks| :: BlockKnown(s.blocks[i], names))
    ensures s.Not? || s.Scan? || s.With? ==> (Known(s, names) <==> BlockKnown(s.block, names))
    ensures s.Inner() == [] && !s.BlockStmt? ==> (Known(s, names) <==> (s.Call? ==> s.func in names))
  {
  }

  lemma ResolveParts(s: Stmt<string>, index: map<string, nat>)
    ensures s.BlockStmt? ==> (Resolve(s, index).Some? <==> ResolveBlocks(s.blocks, |s.blocks|, index).Some?)
    ensures s.Not? || s.Scan? || s.With? ==> (Resolve(s, index).Some? <==> ResolveBlock(s.block, index).Some?)
    ensures s.Inner() == [] && !s.BlockStmt? ==> (Resolve(s, index).Some? <==> (s.Call? ==> s.func in index))
  {
    hide ResolveBlock, ResolveBlocks;
  }

  lemma {:induction false} BlockResolvesIfKnown(b: Block<string>, index: map<string, nat>)
    ensures ResolveBlock(b, index).Some? <==> BlockKnown(b, index.Keys)
    decreases b, 0
  {
    StmtsResolveIfKnown(b.stmts, |b.stmts|, index);
  }

  lemma {:induction false} StmtsResolveIfKnown(ss: seq<Stmt<string>>, k: nat, index: map<string, nat>)
    requires k <= |ss|
    ensures ResolveStmts(ss, k, index).Some? <==> forall i | 0 <= i < k :: Known(ss[i], index.Keys)
    decreases ss, k
  {
    hide Resolve, Known;
    if k > 0 {
      StmtsResolveIfKnown(ss, k - 1, index);
      ResolvesIfKnown(ss[k - 1], index);
    }
  }

  lemma {:induction false} BlocksResolveIfKnown(bs: seq<Block<string>>, k: nat, index: map<string, nat>)
    requires k <= |bs|
    ensures ResolveBlocks(bs, k, index).Some? <==> forall i | 0 <= i < k :: BlockKnown(bs[i], index.Keys)
    decreases bs, k
  {
    hide ResolveBlock, BlockKnown;
    if k > 0 {
      BlocksResolveIfKnown(bs, k - 1, index);
      BlockResolvesIfKnown(bs[k - 1], index);
    }
  }

  // ---- The function table ----

  /** A compiled program: its functions and the index they were found under. */
  datatype Program = Program(funcs: seq<Func<nat>>, index: map<string, nat>)

  /** The builtins come first, in the order of the policy's declarations. */
  function DeclareUpto(builtins: seq<string>, available: set<string>, n: nat): Option<Program>
    requires n <= |builtins|
  {
    if n == 0 then Some(Program([], map[]))
    else
      var p := DeclareUpto(builtins, available, n - 1);
      var name := builtins[n - 1];
      if p.None? || name !in available then None
      else Some(Program(p.value.funcs + [Builtin(name)], p.value.index[name := n - 1]))
  }

  /** Then the functions: each is entered into the index after its body is compiled. */
  function CompileUpto(p: Program, funcs: seq<Func<string>>, n: nat): Option<Program>
    requires n <= |funcs| && forall i | 0 <= i < n :: funcs[i].Func?
  {
    if n == 0 then Some(p)
    else
      var before := CompileUpto(p, funcs, n - 1);
      if before.None? then None
      else
        var q := before.value;
        var f := ResolveFunc(funcs[n - 1], q.index);
        if f.None? then None else Some(Program(q.funcs + [f.value], q.index[f.value.name := |q.funcs|]))
  }

  function Compile(builtins: seq<string>, available: set<string>, funcs: seq<Func<string>>): Option<Program>
    requires forall i | 0 <= i < |funcs| :: funcs[i].Func?
  {
    var p := DeclareUpto(builtins, available, |builtins|);
    if p.None? then None else CompileUpto(p.value, funcs, |funcs|)
  }

  /** Every function calls only functions before it, and the index finds each under its
      own name. */
  ghost predicate WellFounded(p: Program) {
    && IndexBelow(p.index, |p.funcs|) && IndexNames(p.index, p.funcs)
    && forall i | 0 <= i < |p.funcs| :: FuncCallsBelow(p.funcs[i], i)
  }

  lemma {:induction false} DeclaredWellFounded(builtins: seq<string>, available: set<string>, n: nat)
    requires n <= |builtins| && DeclareUpto(builtins, available, n).Some?
    ensures WellFounded(DeclareUpto(builtins, available, n).value)
    ensures |DeclareUpto(builtins, available, n).value.funcs| == n
  {
    if n > 0 {
      DeclaredWellFounded(builtins, available, n - 1);
    }
  }

  lemma {:induction false} CompiledWellFounded(p: Program, funcs: seq<Func<string>>, n: nat)
    requires n <= |funcs| && (forall i | 0 <= i < n :: funcs[i].Func?) && WellFounded(p) && CompileUpto(p, funcs, n).Some?
    ensures WellFounded(CompileUpto(p, funcs, n).value)
  {
    hide ResolveFunc, FuncCallsBelow;
    if n > 0 {
      CompiledWellFounded(p, funcs, n - 1);
      var q := CompileUpto(p, funcs, n - 1).value;
      FuncCompiled(funcs[n - 1], q.index, |q.funcs|);
    }
  }

  lemma FuncCompiled(f: Func<string>, index: map<string, nat>, n: nat)
    requires f.Func? && IndexBelow(index, n) && ResolveFunc(f, index).Some?
    ensures FuncCallsBelow(ResolveFunc(f, index).value, n)
  {
    hide BlockCallsBelow;
    ResolveBlocksCallBelow(f.blocks, |f.blocks|, index, n);
  }

  /** A policy that compiles has no recursion: functions only call smaller indexes. */
  lemma CompiledCallsDescend(builtins: seq<string>, available: set<string>, funcs: seq<Func<string>>)
    requires forall i | 0 <= i < |funcs| :: funcs[i].Func?
    requires Compile(builtins, available, funcs).Some?
    ensures WellFounded(Compile(builtins, available, funcs).value)
  {
    hide WellFounded;
    DeclaredWellFounded(builtins, available, |builtins|);
    CompiledWellFounded(DeclareUpto(builtins, available, |builtins|).value, funcs, |funcs|);
  }

  ghost function NamesBefore(p: Program, funcs: seq<Func<string>>, n: nat): set<string>
    requires n <= |funcs|
  {
    p.index.Keys + set i | 0 <= i < n :: funcs[i].name
  }

  /** A function compiles after its predecessors: it has a parameter and calls only
      builtins and functions declared before it. */
  ghost predicate Compilable(p: Program, funcs: seq<Func<string>>, i: nat)
    requires i < |funcs| && funcs[i].Func?
  {
    funcs[i].params != [] && forall j | 0 <= j < |funcs[i].blocks| :: BlockKnown(funcs[i].blocks[j], NamesBefore(p, funcs, i))
  }

  lemma FuncResolvesIfKnown(f: Func<string>, index: map<string, nat>)
    requires f.Func?
    ensures ResolveFunc(f, index).Some? <==>
            f.params != [] && forall j | 0 <= j < |f.blocks| :: BlockKnown(f.blocks[j], index.Keys)
    ensures ResolveFunc(f, index).Some? ==> ResolveFunc(f, index).value.name == f.name
  {
    hide BlockKnown, ResolveBlock;
    BlocksResolveIfKnown(f.blocks, |f.blocks|, index);
  }

  /** A policy compiles exactly when each function calls only what stands before it. */
  lemma {:induction false} CompilesIfCompilable(p: Program, funcs: seq<Func<string>>, n: nat)
    requires n <= |funcs| && forall i | 0 <= i < |funcs| :: funcs[i].Func?
    ensures CompileUpto(p, funcs, n).Some? <==> forall i | 0 <= i < n :: Compilable(p, funcs, i)
    ensures CompileUpto(p, funcs, n).Some? ==> CompileUpto(p, funcs, n).value.index.Keys == NamesBefore(p, funcs, n)
  {
    hide BlockKnown, ResolveFunc;
    if n == 0 {
      assert NamesBefore(p, funcs, 0) == p.index.Keys;
    } else {
      CompilesIfCompilable(p, funcs, n - 1);
      var earlier := forall i | 0 <= i < n - 1 :: Compilable(p, funcs, i);
      assert (forall i | 0 <= i < n :: Compilable(p, funcs, i)) <==> earlier && Compilable(p, funcs, n - 1);
      if CompileUpto(p, funcs, n - 1).Some? {
        FuncResolvesIfKnown(funcs[n - 1], CompileUpto(p, funcs, n - 1).value.index);
        assert NamesBefore(p, funcs, n) == NamesBefore(p, funcs, n - 1) + {funcs[n - 1].name};
      }
    }
  }

  /** compileFuncs: one pass over the builtins, one over the functions. */
  method CompileFuncs(builtins: seq<string>, available: set<string>, funcs: seq<Func<string>>) returns (r: Option<Program>)
    requires forall i | 0 <= i < |funcs| :: funcs[i].Func?
    ensures r == Compile(builtins, available, funcs)
    ensures r.Some? ==> WellFounded(r.value)
  {
    hide ResolveFunc, WellFounded;
    var functions: seq<Func<nat>>, functionIndex: map<string, nat> := [], map[];
    for i := 0 to |builtins|
      invariant |functions| == i && DeclareUpto(builtins, available, i) == Some(Program(functions, functionIndex))
    {
      if builtins[i] !in available {
        Undeclared(builtins, available, i + 1, |builtins|);
        return None;
      }
      functionIndex := functionIndex[builtins[i] := i];
      functions := functions + [Builtin(builtins[i])];
    }
    ghost var p := Program(functions, functionIndex);
    for i := 0 to |funcs|
      invariant |functions| == |builtins| + i && CompileUpto(p, funcs, i) == Some(Program(functions, functionIndex))
    {
      var f := ResolveFunc(funcs[i], functionIndex);
      if f.None? {
        Uncompiled(p, funcs, i + 1, |funcs|);
        return None;
      }
      functionIndex := functionIndex[f.value.name := i + |builtins|];
      functions := functions + [f.value];
    }
    CompiledCallsDescend(builtins, available, funcs);
    return Some(Program(functions, functionIndex));
  }

  lemma {:induction false} Undeclared(builtins: seq<string>, available: set<string>, i: nat, n: nat)
    requires i <= n <= |builtins| && DeclareUpto(builtins, available, i).None?
    ensures DeclareUpto(builtins, available, n).None?
  {
    if i < n {
      Undeclared(builtins, available, i, n - 1);
    }
  }

  lemma {:induction false} Uncompiled(p: Program, funcs: seq<Func<string>>, i: nat, n: nat)
    requires i <= n <= |funcs| && (forall k | 0 <= k < n :: funcs[k].Func?) && CompileUpto(p, funcs, i).None?
    ensures CompileUpto(p, funcs, n).None?
  {
    if i < n {
      Uncompiled(p, funcs, i, n - 1);
    }
  }
}
