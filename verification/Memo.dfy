/** What memoization relies on: planned code leaves the input and data documents in
    their locals, returns last, and is called with both documents first; and calls with
    different arguments have different keys, but for one pair of values. */
module Memoization {
  import opened ByteCodec
  import opened Ir
  import opened Evaluation
  import opened EvaluationSteps

  // ---- Planned code ----

  /** The locals a statement assigns, blocks aside. */
  function Writes(s: Stmt<nat>): set<int> {
    match s
    case ArrayAppend(_, target) => {target}
    case AssignInt(_, target) => {target}
    case AssignVar(_, target) => {target}
    case AssignVarOnce(_, target) => {target}
    case Call(_, _, result) => {result}
    case Dot(_, _, target) => {target}
    case Len(_, target) => {target}
    case MakeArray(_, target) => {target}
    case MakeNull(target) => {target}
    case MakeNumberInt(_, target) => {target}
    case MakeNumberRef(_, target) => {target}
    case MakeObject(target) => {target}
    case MakeSet(target) => {target}
    case ObjectInsert(_, _, target) => {target}
    case ObjectInsertOnce(_, _, target) => {target}
    case ObjectMerge(_, _, target) => {target}
    case ResetLocal(target) => {target}
    case Scan(_, keyLocal, valueLocal, _) => {keyLocal, valueLocal}
    case SetAdd(_, target) => {target}
    case _ => {}
  }

  /** A call to a function passes the caller's input and data first. */
  predicate CallTame(funcs: seq<Func<nat>>, s: Stmt<nat>)
    requires s.Call?
  {
    s.func < |funcs| && funcs[s.func].Func? ==>
      && |s.args| >= |funcs[s.func].params| >= 2
      && s.args[0] == Operand.Local(INPUT) && s.args[1] == Operand.Local(DATA)
  }

  predicate FlatTame(funcs: seq<Func<nat>>, s: Stmt<nat>) {
    && !s.CallDynamic? && !s.ReturnLocal? && INPUT !in Writes(s) && DATA !in Writes(s)
    && (s.Call? ==> CallTame(funcs, s))
  }

  /** Only `with` replaces the documents, and nothing inside returns. */
  predicate Tame(funcs: seq<Func<nat>>, s: Stmt<nat>)
    decreases s, 1
  {
    && FlatTame(funcs, s)
    && match s
       case BlockStmt(blocks) => forall i | 0 <= i < |blocks| :: BlockTame(funcs, blocks[i])
       case Not(block) => BlockTame(funcs, block)
       case Scan(_, _, _, block) => BlockTame(funcs, block)
       case With(_, _, _, block) => BlockTame(funcs, block)
       case _ => true
  }

  predicate BlockTame(funcs: seq<Func<nat>>, b: Block<nat>)
    decreases b, 0
  {
    forall i | 0 <= i < |b.stmts| :: Tame(funcs, b.stmts[i])
  }

  /** The last statement may be the return. */
  predicate TailTame(funcs: seq<Func<nat>>, ss: seq<Stmt<nat>>) {
    forall i | 0 <= i < |ss| :: Tame(funcs, ss[i]) || (ss[i].ReturnLocal? && i == |ss| - 1)
  }

  /** Only the last statement of the last block returns. */
  predicate BlocksTame(funcs: seq<Func<nat>>, bs: seq<Block<nat>>) {
    && (forall i | 0 <= i < |bs| - 1 :: BlockTame(funcs, bs[i]))
    && (bs != [] ==> TailTame(funcs, bs[|bs| - 1].stmts))
  }

  /** A planned function: input and data are its first parameters, and only the last
      statement of its last block returns. */
  predicate FuncTame(funcs: seq<Func<nat>>, f: Func<nat>) {
    f.Func? ==>
      && |f.params| >= 2 && f.params[0] == INPUT && f.params[1] == DATA
      && (forall i | 2 <= i < |f.params| :: f.params[i] != INPUT && f.params[i] != DATA)
      && BlocksTame(funcs, f.blocks)
  }

  // ---- A statement without blocks assigns nothing else ----

  ghost predicate KeepsLocal(e: Effect, fr: Frame, l: int) {
    e.Good? ==> e.frame.Get(l) == fr.Get(l) && e.frame.ret == fr.ret
  }

  lemma StepKeeps(l: int, ops: Ops, s: Stmt<nat>, fr: Frame)
    requires !s.ReturnLocal? && l !in Writes(s)
    ensures KeepsLocal(Step(ops, s, fr), fr, l)
  {
    hide DotStep, InsertStep, InsertOnce, MergeStep, AssignOnce, KeepsLocal;
    if s.Dot? {
      DotKeeps(l, ops, s.source, s.key, s.target, fr);
    } else if s.ObjectInsert? || s.ObjectInsertOnce? {
      InsertKeeps(l, ops, fr.Val(ops, s.key), fr.Val(ops, s.item), s.target, fr);
    } else if s.ObjectMerge? {
      MergeKeeps(l, ops, fr.Get(s.left), fr.Get(s.right), s.target, fr);
    } else if s.AssignVarOnce? {
      AssignOnceKeeps(l, ops, fr.Val(ops, s.source), s.target, fr);
    } else {
      SimpleStepKeeps(l, ops, s, fr);
    }
  }

  lemma SimpleStepKeeps(l: int, ops: Ops, s: Stmt<nat>, fr: Frame)
    requires !s.ReturnLocal? && l !in Writes(s)
    requires !s.Dot? && !s.ObjectInsert? && !s.ObjectInsertOnce? && !s.ObjectMerge? && !s.AssignVarOnce?
    ensures KeepsLocal(Step(ops, s, fr), fr, l)
  {
    hide DotStep, InsertStep, InsertOnce, MergeStep, AssignOnce, KeepsLocal, EqualStep, TypeStep, Assign, AssignDefined, Inverted;
    if s.Equal? || s.NotEqual? {
      EqualKeeps(l, ops, fr.Val(ops, s.a), fr.Val(ops, s.b), fr);
    } else if s.IsArray? || s.IsObject? || s.IsSet? {
      TypeKeeps(l, if s.IsArray? then ops.isArray else if s.IsObject? then ops.isObject else ops.isSet, fr.Val(ops, s.source), fr);
    } else if s.ArrayAppend? {
      AssignKeeps(l, fr, s.target, ops.append(fr.Get(s.target), fr.Val(ops, s.item)));
    } else if s.Len? {
      AssignDefinedKeeps(l, fr, s.target, ops.len(fr.Val(ops, s.source)));
    } else if s.SetAdd? {
      AssignDefinedKeeps(l, fr, s.target, ops.setAdd(fr.Get(s.target), fr.Val(ops, s.item)));
    } else {
      DirectStepKeeps(l, ops, s, fr);
    }
  }

  lemma EqualKeeps(l: int, ops: Ops, a: Maybe, b: Maybe, fr: Frame)
    ensures KeepsLocal(EqualStep(ops, a, b, fr), fr, l) && KeepsLocal(Inverted(EqualStep(ops, a, b, fr)), fr, l)
  {
  }

  lemma TypeKeeps(l: int, test: Value -> Res<bool>, v: Maybe, fr: Frame)
    ensures KeepsLocal(TypeStep(test, v, fr), fr, l)
  {
  }

  lemma AssignKeeps(l: int, fr: Frame, target: int, r: Res<Maybe>)
    requires target != l
    ensures KeepsLocal(Assign(fr, target, r), fr, l)
  {
  }

  lemma AssignDefinedKeeps(l: int, fr: Frame, target: int, r: Res<Value>)
    requires target != l
    ensures KeepsLocal(AssignDefined(fr, target, r), fr, l)
  {
  }

  lemma DirectStepKeeps(l: int, ops: Ops, s: Stmt<nat>, fr: Frame)
    requires !s.ReturnLocal? && l !in Writes(s)
    requires !s.Dot? && !s.ObjectInsert? && !s.ObjectInsertOnce? && !s.ObjectMerge? && !s.AssignVarOnce?
    requires !s.Equal? && !s.NotEqual? && !s.IsArray? && !s.IsObject? && !s.IsSet? && !s.ArrayAppend? && !s.Len? && !s.SetAdd?
    ensures KeepsLocal(Step(ops, s, fr), fr, l)
  {
    hide DotStep, InsertStep, InsertOnce, MergeStep, AssignOnce, EqualStep, TypeStep, Assign, AssignDefined, Inverted;
  }

  lemma DotKeeps(l: int, ops: Ops, source: Operand, key: Operand, target: int, fr: Frame)
    requires target != l
    ensures KeepsLocal(DotStep(ops, source, key, target, fr), fr, l)
  {
    hide DataGet;
  }

  lemma InsertKeeps(l: int, ops: Ops, key: Maybe, item: Maybe, target: int, fr: Frame)
    requires target != l
    ensures KeepsLocal(InsertStep(ops, key, item, target, fr), fr, l) && KeepsLocal(InsertOnce(ops, key, item, target, fr), fr, l)
  {
  }

  lemma MergeKeeps(l: int, ops: Ops, a: Maybe, b: Maybe, target: int, fr: Frame)
    requires target != l
    ensures KeepsLocal(MergeStep(ops, a, b, target, fr), fr, l)
  {
  }

  lemma AssignOnceKeeps(l: int, ops: Ops, source: Maybe, target: int, fr: Frame)
    requires target != l
    ensures KeepsLocal(AssignOnce(ops, source, target, fr), fr, l)
  {
  }

  // ---- Planned code keeps the documents ----

  ghost predicate SameInputs(fr: Frame, fr': Frame) {
    fr'.Get(INPUT) == fr.Get(INPUT) && fr'.Get(DATA) == fr.Get(DATA)
  }

  ghost predicate Keeps(o: Outcome, fr: Frame) {
    o.Done? ==> SameInputs(fr, o.frame) && o.frame.ret == fr.ret
  }

  lemma CallKeeps(r: Result, result: int, fr: Frame)
    requires result != INPUT && result != DATA
    ensures Keeps(CallStep(r, result, fr), fr)
  {
  }

  lemma FlatKeeps(ops: Ops, s: Stmt<nat>, fr: Frame, memo: Memo)
    requires !s.ReturnLocal? && INPUT !in Writes(s) && DATA !in Writes(s)
    ensures Keeps(Lifted(Step(ops, s, fr), memo), fr)
  {
    hide Step;
    StepKeeps(INPUT, ops, s, fr);
    StepKeeps(DATA, ops, s, fr);
  }

  lemma LeavesKeep(o: Outcome, fr: Frame)
    requires Keeps(o, fr)
    ensures Keeps(LeaveBlock(o), fr) && Keeps(LeaveNot(o), fr)
  {
  }

  lemma WithKeeps(o: Outcome, local: int, v: Maybe, fr: Frame, memo: Memo)
    requires Keeps(o, fr.Set(local, v))
    ensures Keeps(LeaveWith(o, local, fr.Get(local), memo), fr)
  {
  }

  lemma FailureKeeps(e: Error, fr: Frame)
    ensures Keeps(Fails(e), fr)
  {
  }

  /** A scan's own locals are not the documents'. */
  lemma ScanKeepsInputs(fr: Frame, keyLocal: int, valueLocal: int, elem: (Value, Value))
    requires keyLocal != INPUT && keyLocal != DATA && valueLocal != INPUT && valueLocal != DATA
    ensures var fr' := ScanFrame(fr, keyLocal, valueLocal, elem); SameInputs(fr, fr') && fr'.ret == fr.ret
  {
  }

  lemma TameParts(funcs: seq<Func<nat>>, s: Stmt<nat>)
    requires Tame(funcs, s)
    ensures FlatTame(funcs, s)
    ensures s.BlockStmt? ==> forall i | 0 <= i < |s.blocks| :: BlockTame(funcs, s.blocks[i])
    ensures s.Not? || s.Scan? || s.With? ==> BlockTame(funcs, s.block)
  {
    hide FlatTame;
  }

  lemma {:induction false} EvalKeeps(env: Env, n: nat, s: Stmt<nat>, fr: Frame, memo: Memo)
    requires env.Valid() && n <= |env.funcs| && CallsBelow(s, n) && Tame(env.funcs, s)
    ensures Keeps(Eval(env, n, s, fr, memo), fr)
    decreases s, 1, 0
  {
    hide Eval, EvalStmts, EvalBlockStmt, EvalScan, EvalFunc, Step, CallStep, Tame, CallsBelow, Keeps;
    hide LeaveBlock, LeaveNot, LeaveWith, Upsert, Lifted;
    TameParts(env.funcs, s);
    EvalParts(env, n, s, fr, memo);
    if s.BlockStmt? {
      EvalBlockStmtKeeps(env, n, s.blocks, 0, fr, memo);
    } else if s.Not? {
      EvalStmtsKeeps(env, n, s.block.stmts, 0, fr, memo);
      LeavesKeep(EvalStmts(env, n, s.block.stmts, 0, fr, memo), fr);
    } else if s.Scan? {
      EvalScanParts(env, n, s, fr, memo);
      var r := env.ops.iter(fr.Get(s.local));
      if r.Ok? {
        EvalScanKeeps(env, n, s.keyLocal, s.valueLocal, s.block, r.v, 0, fr, memo);
        LeavesKeep(EvalScan(env, n, s.keyLocal, s.valueLocal, s.block, r.v, 0, fr, memo), fr);
      } else {
        FailureKeeps(r.error, fr);
      }
    } else if s.With? {
      EvalWithParts(env, n, s, fr, memo);
      var r := Upsert(env.ops, fr.Get(s.local), s.segments, fr.Val(env.ops, s.item));
      if r.Ok? {
        EvalStmtsKeeps(env, n, s.block.stmts, 0, fr.Set(s.local, r.v), map[]);
        WithKeeps(EvalStmts(env, n, s.block.stmts, 0, fr.Set(s.local, r.v), map[]), s.local, r.v, fr, memo);
      } else {
        FailureKeeps(r.error, fr);
      }
    } else if s.Call? {
      CallKeeps(EvalFunc(env, s.func, fr.Vals(env.ops, s.args), memo), s.result, fr);
    } else {
      FlatKeeps(env.ops, s, fr, memo);
    }
  }

  lemma {:induction false} EvalStmtsKeeps(env: Env, n: nat, ss: seq<Stmt<nat>>, k: nat, fr: Frame, memo: Memo)
    requires env.Valid() && n <= |env.funcs| && k <= |ss|
    requires (forall i | 0 <= i < |ss| :: CallsBelow(ss[i], n)) && forall i | 0 <= i < |ss| :: Tame(env.funcs, ss[i])
    ensures Keeps(EvalStmts(env, n, ss, k, fr, memo), fr)
    decreases ss, 0, |ss| - k
  {
    hide Eval, Tame, CallsBelow, EvalStmts;
    EvalStmtsStep(env, n, ss, k, fr, memo);
    if k < |ss| {
      EvalKeeps(env, n, ss[k], fr, memo);
      var o := Eval(env, n, ss[k], fr, memo);
      if o.Done? && !o.stop {
        EvalStmtsKeeps(env, n, ss, k + 1, o.frame, o.memo);
      }
    }
  }

  lemma {:induction false} EvalBlockKeeps(env: Env, n: nat, b: Block<nat>, fr: Frame, memo: Memo)
    requires env.Valid() && n <= |env.funcs| && BlockCallsBelow(b, n) && BlockTame(env.funcs, b)
    ensures Keeps(EvalBlock(env, n, b, fr, memo), fr)
    decreases b, 0, 0
  {
    EvalBlockParts(env, n, b, fr, memo);
    EvalStmtsKeeps(env, n, b.stmts, 0, fr, memo);
    hide EvalStmts, EvalBlock, LeaveBlock, Dispatched;
    var o := After(Ticks(Dispatched(env, n, b.stmts, 0, fr, memo)), EvalStmts(env, n, b.stmts, 0, fr, memo));
    LeavesKeep(o, fr);
  }

  lemma {:induction false} EvalBlockStmtKeeps(env: Env, n: nat, bs: seq<Block<nat>>, k: nat, fr: Frame, memo: Memo)
    requires env.Valid() && n <= |env.funcs| && k <= |bs|
    requires (forall i | 0 <= i < |bs| :: BlockCallsBelow(bs[i], n)) && forall i | 0 <= i < |bs| :: BlockTame(env.funcs, bs[i])
    ensures Keeps(EvalBlockStmt(env, n, bs, k, fr, memo), fr)
    decreases bs, 0, |bs| - k
  {
    hide EvalBlock, EvalBlockStmt, BlockTame, BlockCallsBelow;
    EvalBlockStmtStep(env, n, bs, k, fr, memo);
    if k < |bs| {
      EvalBlockKeeps(env, n, bs[k], fr, memo);
      var o := EvalBlock(env, n, bs[k], fr, memo);
      if o.Done? && !o.stop {
        EvalBlockStmtKeeps(env, n, bs, k + 1, o.frame, o.memo);
      }
    }
  }

  lemma {:induction false} EvalScanKeeps(env: Env, n: nat, keyLocal: int, valueLocal: int, b: Block<nat>,
                                         elems: seq<(Value, Value)>, k: nat, fr: Frame, memo: Memo)
    requires env.Valid() && n <= |env.funcs| && k <= |elems| && BlockCallsBelow(b, n) && BlockTame(env.funcs, b)
    requires keyLocal != INPUT && keyLocal != DATA && valueLocal != INPUT && valueLocal != DATA
    ensures Keeps(EvalScan(env, n, keyLocal, valueLocal, b, elems, k, fr, memo), fr)
    decreases b, 1, |elems| - k
  {
    hide EvalBlock, EvalScan, BlockTame, BlockCallsBelow, ScanFrame;
    EvalScanStep(env, n, keyLocal, valueLocal, b, elems, k, fr, memo);
    if k < |elems| {
      ScanKeepsInputs(fr, keyLocal, valueLocal, elems[k]);
      var fr' := ScanFrame(fr, keyLocal, valueLocal, elems[k]);
      EvalBlockKeeps(env, n, b, fr', memo);
      var o := EvalBlock(env, n, b, fr', memo);
      if o.Done? && !o.stop {
        EvalScanKeeps(env, n, keyLocal, valueLocal, b, elems, k + 1, o.frame, o.memo);
      }
    }
  }

  // ---- A planned function's return value is defined ----

  /** Nothing returned yet, or a defined value returned. */
  ghost predicate ReturnDefined(fr: Frame) {
    fr.ret >= 0 ==> fr.Get(fr.ret).Some?
  }

  lemma {:induction false} EvalTail(env: Env, n: nat, ss: seq<Stmt<nat>>, k: nat, fr: Frame, memo: Memo)
    requires env.Valid() && n <= |env.funcs| && k <= |ss| && (forall i | 0 <= i < |ss| :: CallsBelow(ss[i], n))
    requires TailTame(env.funcs, ss) && fr.ret < 0
    ensures var o := EvalStmts(env, n, ss, k, fr, memo); o.Done? ==> SameInputs(fr, o.frame) && ReturnDefined(o.frame)
    decreases |ss| - k
  {
    hide Eval, Tame, CallsBelow, EvalStmts;
    EvalStmtsStep(env, n, ss, k, fr, memo);
    if k < |ss| {
      var o := Eval(env, n, ss[k], fr, memo);
      if Tame(env.funcs, ss[k]) {
        EvalKeeps(env, n, ss[k], fr, memo);
        if o.Done? && !o.stop {
          EvalTail(env, n, ss, k + 1, o.frame, o.memo);
        }
      } else {
        EvalReturn(env, n, ss[k], fr, memo);
        EvalStmtsStep(env, n, ss, k + 1, o.frame, o.memo);
      }
    }
  }

  lemma EvalReturn(env: Env, n: nat, s: Stmt<nat>, fr: Frame, memo: Memo)
    requires env.Valid() && n <= |env.funcs| && CallsBelow(s, n) && s.ReturnLocal?
    ensures Eval(env, n, s, fr, memo) == Lifted(Next(fr.Return(s.local)), memo)
    ensures SameInputs(fr, fr.Return(s.local)) && ReturnDefined(fr.Return(s.local))
  {
  }

  lemma TailBlockReturns(env: Env, n: nat, b: Block<nat>, fr: Frame, memo: Memo)
    requires env.Valid() && n <= |env.funcs| && BlockCallsBelow(b, n) && TailTame(env.funcs, b.stmts) && fr.ret < 0
    ensures var o := EvalBlock(env, n, b, fr, memo); o.Done? ==> SameInputs(fr, o.frame) && ReturnDefined(o.frame)
  {
    hide TailTame, EvalStmts;
    EvalTail(env, n, b.stmts, 0, fr, memo);
  }

  lemma TailTameBlock(funcs: seq<Func<nat>>, b: Block<nat>)
    requires BlockTame(funcs, b)
    ensures TailTame(funcs, b.stmts)
  {
  }

  lemma BlockKeepsInputs(env: Env, n: nat, bs: seq<Block<nat>>, k: nat, fr: Frame, memo: Memo)
    requires env.Valid() && n <= |env.funcs| && k < |bs| && BlockCallsBelow(bs[k], n) && BlocksTame(env.funcs, bs) && fr.ret < 0
    ensures TailTame(env.funcs, bs[k].stmts)
    ensures var o := EvalBlock(env, n, bs[k], fr, memo);
            o.Done? ==> SameInputs(fr, o.frame) && ReturnDefined(o.frame) && (k < |bs| - 1 ==> o.frame.ret < 0)
  {
    hide EvalBlock, BlockCallsBelow, BlockTame, TailTame;
    if k < |bs| - 1 {
      EvalBlockKeeps(env, n, bs[k], fr, memo);
      TailTameBlock(env.funcs, bs[k]);
    } else {
      TailBlockReturns(env, n, bs[k], fr, memo);
    }
  }

  lemma {:induction false} EvalBlocksReturn(env: Env, n: nat, bs: seq<Block<nat>>, k: nat, fr: Frame, memo: Memo)
    requires env.Valid() && n <= |env.funcs| && k <= |bs| && (forall i | 0 <= i < |bs| :: BlockCallsBelow(bs[i], n))
    requires BlocksTame(env.funcs, bs) && fr.ret < 0
    ensures var o := EvalBlocks(env, n, bs, k, fr, memo); o.Done? ==> ReturnDefined(o.frame)
    decreases |bs| - k
  {
    hide EvalBlock, EvalBlocks, BlockTame, TailTame, BlockCallsBelow, BlocksTame;
    EvalBlocksStep(env, n, bs, k, fr, memo);
    if k < |bs| {
      BlockKeepsInputs(env, n, bs, k, fr, memo);
      var o := EvalBlock(env, n, bs[k], fr, memo);
      if k < |bs| - 1 {
        if o.Done? {
          EvalBlocksReturn(env, n, bs, k + 1, o.frame, o.memo);
        }
      } else if o.Done? {
        EvalBlocksStep(env, n, bs, k + 1, o.frame, o.memo);
      }
    }
  }

  /** A planned function that runs and returns, returns a defined value. */
  lemma ReturnIsDefined(env: Env, i: nat, args: seq<Maybe>, memo: Memo)
    requires env.Valid() && i < |env.funcs| && env.funcs[i].Func? && |args| >= |env.funcs[i].params|
    requires FuncTame(env.funcs, env.funcs[i])
    ensures var r := RunFunc(env, i, args, memo); r.Returned? && r.has ==> r.value.Some?
  {
    hide BlockTame, TailTame, BlockCallsBelow, EvalBlocks, RunFunc;
    var f := env.funcs[i];
    EnterKeepsReturn(env, f.params, args, |f.params|);
    RunParts(env, i, args, memo);
    EvalBlocksReturn(env, i, f.blocks, 0, env.Enter(f.params, args, |f.params|), memo);
  }

  // ---- Keys ----

  /** Two argument lists share a key exactly when they agree up to undefined values
      and empty strings. */
  lemma KeysAgree(i: nat, j: nat, xs: seq<Maybe>, ys: seq<Maybe>)
    ensures KeyOf(i, xs) == KeyOf(j, ys) <==>
            i == j && |xs| == |ys| && forall k | 0 <= k < |xs| :: xs[k] == ys[k] || (Blankish(xs[k]) && Blankish(ys[k]))
  {
    var p, q := KeyOf(i, xs).args, KeyOf(j, ys).args;
    if |xs| == |ys| {
      forall k | 0 <= k < |xs|
        ensures p[k] == q[k] <==> xs[k] == ys[k] || (Blankish(xs[k]) && Blankish(ys[k]))
      {
      }
    } else {
      assert |p| == |xs| && |q| == |ys|;
    }
  }

  /** As long as undefined is never passed, or the empty string is never passed, every
      argument list has a key of its own. */
  lemma KeysOfTheirOwn(idx: nat, xs: seq<Maybe>, ys: seq<Maybe>, taboo: Maybe)
    requires Blankish(taboo) && taboo !in xs && taboo !in ys && KeyOf(idx, xs) == KeyOf(idx, ys)
    ensures xs == ys
  {
    KeysAgree(idx, idx, xs, ys);
  }
}
