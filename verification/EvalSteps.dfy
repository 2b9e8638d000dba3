/** Evaluation, one step at a time: what each kind of statement, and each loop over
    statements, blocks and elements, does next. */
module EvaluationSteps {
  import opened ByteCodec
  import opened Ir
  import opened Evaluation

  lemma CallsBelowParts(s: Stmt<nat>, n: nat)
    requires CallsBelow(s, n)
    ensures s.Call? ==> s.func < n
    ensures s.BlockStmt? ==> forall i | 0 <= i < |s.blocks| :: BlockCallsBelow(s.blocks[i], n)
    ensures s.Not? || s.Scan? || s.With? ==> BlockCallsBelow(s.block, n)
    ensures s.Not? || s.Scan? || s.With? ==> forall i | 0 <= i < |s.block.stmts| :: CallsBelow(s.block.stmts[i], n)
  {
    if s.Not? || s.Scan? || s.With? {
      assert BlockCallsBelow(s.block, n);
    }
  }

  predicate IsFlat(s: Stmt<nat>) { !s.BlockStmt? && !s.Not? && !s.Scan? && !s.With? && !s.Call? }

  lemma EvalParts(env: Env, n: nat, s: Stmt<nat>, fr: Frame, memo: Memo)
    requires env.Valid() && n <= |env.funcs| && CallsBelow(s, n)
    ensures s.BlockStmt? ==>
              && (forall i | 0 <= i < |s.blocks| :: BlockCallsBelow(s.blocks[i], n))
              && Eval(env, n, s, fr, memo) == EvalBlockStmt(env, n, s.blocks, 0, fr, memo)
    ensures s.Not? ==>
              && (forall i | 0 <= i < |s.block.stmts| :: CallsBelow(s.block.stmts[i], n))
              && Eval(env, n, s, fr, memo) == LeaveNot(EvalStmts(env, n, s.block.stmts, 0, fr, memo))
    ensures s.Call? ==>
              s.func < n && Eval(env, n, s, fr, memo) == CallStep(EvalFunc(env, s.func, fr.Vals(env.ops, s.args), memo), s.result, fr)
    ensures IsFlat(s) ==> Eval(env, n, s, fr, memo) == Lifted(Step(env.ops, s, fr), memo)
  {
    hide Step, EvalStmts, EvalBlockStmt, EvalFunc, CallStep, LeaveNot, Lifted;
    CallsBelowParts(s, n);
  }

  lemma EvalScanParts(env: Env, n: nat, s: Stmt<nat>, fr: Frame, memo: Memo)
    requires env.Valid() && n <= |env.funcs| && CallsBelow(s, n) && s.Scan?
    ensures BlockCallsBelow(s.block, n)
    ensures var r := env.ops.iter(fr.Get(s.local));
            Eval(env, n, s, fr, memo) ==
              if r.Err? then Fails(r.error)
              else LeaveBlock(EvalScan(env, n, s.keyLocal, s.valueLocal, s.block, r.v, 0, fr, memo))
  {
    hide EvalScan, LeaveBlock;
    CallsBelowParts(s, n);
  }

  lemma EvalWithParts(env: Env, n: nat, s: Stmt<nat>, fr: Frame, memo: Memo)
    requires env.Valid() && n <= |env.funcs| && CallsBelow(s, n) && s.With?
    ensures forall i | 0 <= i < |s.block.stmts| :: CallsBelow(s.block.stmts[i], n)
    ensures var r := Upsert(env.ops, fr.Get(s.local), s.segments, fr.Val(env.ops, s.item));
            Eval(env, n, s, fr, memo) ==
              if r.Err? then Fails(r.error)
              else LeaveWith(EvalStmts(env, n, s.block.stmts, 0, fr.Set(s.local, r.v), map[]), s.local, fr.Get(s.local), memo)
  {
    hide EvalStmts, LeaveWith, Upsert;
    CallsBelowParts(s, n);
  }

  lemma EvalStmtsStep(env: Env, n: nat, ss: seq<Stmt<nat>>, k: nat, fr: Frame, memo: Memo)
    requires env.Valid() && n <= |env.funcs| && k <= |ss| && forall i | 0 <= i < |ss| :: CallsBelow(ss[i], n)
    ensures k == |ss| ==> EvalStmts(env, n, ss, k, fr, memo) == Through(fr, memo)
    ensures k < |ss| ==>
              var o := Eval(env, n, ss[k], fr, memo);
              EvalStmts(env, n, ss, k, fr, memo) ==
                if o.Fail? || o.stop then o else After(o.trace, EvalStmts(env, n, ss, k + 1, o.frame, o.memo))
  {
    hide Eval, CallsBelow, After;
  }

  /** A block ends as its statements do, and they are counted. */
  lemma EvalBlockParts(env: Env, n: nat, b: Block<nat>, fr: Frame, memo: Memo)
    requires env.Valid() && n <= |env.funcs| && BlockCallsBelow(b, n)
    ensures var o, d := EvalStmts(env, n, b.stmts, 0, fr, memo), Dispatched(env, n, b.stmts, 0, fr, memo);
            && EvalBlock(env, n, b, fr, memo) == LeaveBlock(After(Ticks(d), o))
            && After(Ticks(d), o) == o.(trace := Trace(o.trace.adds, o.trace.blanks, d + o.trace.steps))
  {
    hide EvalStmts, Dispatched;
    var o := EvalStmts(env, n, b.stmts, 0, fr, memo);
    assert {} + o.trace.adds == o.trace.adds && {} + o.trace.blanks == o.trace.blanks;
  }

  lemma DispatchedStep(env: Env, n: nat, ss: seq<Stmt<nat>>, k: nat, fr: Frame, memo: Memo)
    requires env.Valid() && n <= |env.funcs| && k <= |ss| && forall i | 0 <= i < |ss| :: CallsBelow(ss[i], n)
    ensures k == |ss| ==> Dispatched(env, n, ss, k, fr, memo) == 0
    ensures k < |ss| ==>
              var o := Eval(env, n, ss[k], fr, memo);
              Dispatched(env, n, ss, k, fr, memo) ==
                if o.Fail? || o.stop then 1 else 1 + Dispatched(env, n, ss, k + 1, o.frame, o.memo)
  {
    hide Eval, CallsBelow;
  }

  lemma EnteredStep(env: Env, n: nat, bs: seq<Block<nat>>, k: nat, fr: Frame, memo: Memo)
    requires env.Valid() && n <= |env.funcs| && k <= |bs| && forall i | 0 <= i < |bs| :: BlockCallsBelow(bs[i], n)
    ensures k == |bs| ==> Entered(env, n, bs, k, fr, memo) == 0
    ensures k < |bs| ==>
              var o := EvalBlock(env, n, bs[k], fr, memo);
              Entered(env, n, bs, k, fr, memo) == if o.Fail? then 1 else 1 + Entered(env, n, bs, k + 1, o.frame, o.memo)
  {
    hide EvalBlock, BlockCallsBelow;
  }

  lemma EvalBlockStmtStep(env: Env, n: nat, bs: seq<Block<nat>>, k: nat, fr: Frame, memo: Memo)
    requires env.Valid() && n <= |env.funcs| && k <= |bs| && forall i | 0 <= i < |bs| :: BlockCallsBelow(bs[i], n)
    ensures k == |bs| ==> EvalBlockStmt(env, n, bs, k, fr, memo) == Through(fr, memo)
    ensures k < |bs| ==>
              var o := EvalBlock(env, n, bs[k], fr, memo);
              EvalBlockStmt(env, n, bs, k, fr, memo) ==
                if o.Fail? || o.stop then o else After(o.trace, EvalBlockStmt(env, n, bs, k + 1, o.frame, o.memo))
  {
    hide EvalBlock, BlockCallsBelow, After;
  }

  lemma EvalBlocksStep(env: Env, n: nat, bs: seq<Block<nat>>, k: nat, fr: Frame, memo: Memo)
    requires env.Valid() && n <= |env.funcs| && k <= |bs| && forall i | 0 <= i < |bs| :: BlockCallsBelow(bs[i], n)
    ensures k == |bs| ==> EvalBlocks(env, n, bs, k, fr, memo) == Through(fr, memo)
    ensures k < |bs| ==>
              var o := EvalBlock(env, n, bs[k], fr, memo);
              EvalBlocks(env, n, bs, k, fr, memo) ==
                if o.Fail? then o else After(o.trace, EvalBlocks(env, n, bs, k + 1, o.frame, o.memo))
  {
    hide EvalBlock, BlockCallsBelow, After;
  }

  lemma EvalScanStep(env: Env, n: nat, keyLocal: int, valueLocal: int, b: Block<nat>, elems: seq<(Value, Value)>, k: nat,
                     fr: Frame, memo: Memo)
    requires env.Valid() && n <= |env.funcs| && k <= |elems| && BlockCallsBelow(b, n)
    ensures k == |elems| ==> EvalScan(env, n, keyLocal, valueLocal, b, elems, k, fr, memo) == Through(fr, memo)
    ensures k < |elems| ==>
              var o := EvalBlock(env, n, b, ScanFrame(fr, keyLocal, valueLocal, elems[k]), memo);
              EvalScan(env, n, keyLocal, valueLocal, b, elems, k, fr, memo) ==
                if o.Fail? || o.stop then o
                else After(o.trace, EvalScan(env, n, keyLocal, valueLocal, b, elems, k + 1, o.frame, o.memo))
  {
    hide EvalBlock, BlockCallsBelow, After, ScanFrame;
  }

  // ---- Functions ----

  lemma BuiltinCall(env: Env, i: nat, args: seq<Maybe>, memo: Memo)
    requires env.Valid() && i < |env.funcs| && env.funcs[i].Builtin?
    ensures var r := env.ops.builtin(i, args);
            EvalFunc(env, i, args, memo) ==
              if r.Err? then Failed(r.error, NOTHING) else Returned(r.v.Some?, r.v, memo, NOTHING)
  {
  }

  lemma FuncCall(env: Env, i: nat, args: seq<Maybe>, memo: Memo)
    requires env.Valid() && i < |env.funcs| && env.funcs[i].Func?
    ensures var np := |env.funcs[i].params|;
            if np < 2 || |args| < np then EvalFunc(env, i, args, memo) == Failed(Panic, NOTHING)
            else
              var own := args[2..np];
              var key, r, t := KeyOf(i, own), RunFunc(env, i, args, memo), Trace({}, Blanks(own), 0);
              EvalFunc(env, i, args, memo) ==
                if !Hashable(own) then r
                else if env.memoize && key in memo then Returned(memo[key].Some?, memo[key], memo, t)
                else if r.Failed? then Failed(r.error, t.Plus(r.trace))
                else Returned(r.has, r.value, if env.memoize then r.memo[key := if r.has then r.value else None] else r.memo,
                              t.Plus(r.trace))
  {
    hide RunFunc, KeyOf, Blanks, Hashable;
  }

  lemma RunParts(env: Env, i: nat, args: seq<Maybe>, memo: Memo)
    requires env.Valid() && i < |env.funcs| && env.funcs[i].Func? && |args| >= |env.funcs[i].params|
    ensures forall k | 0 <= k < |env.funcs[i].blocks| :: BlockCallsBelow(env.funcs[i].blocks[k], i)
    ensures var f := env.funcs[i];
            var o := EvalBlocks(env, i, f.blocks, 0, env.Enter(f.params, args, |f.params|), memo);
            RunFunc(env, i, args, memo) ==
              if o.Fail? then Failed(o.error, o.trace)
              else Returned(o.frame.ret >= 0, o.frame.Get(o.frame.ret), o.memo, o.trace)
  {
    hide EvalBlocks, BlockCallsBelow;
    assert FuncCallsBelow(env.funcs[i], i);
  }

  lemma {:induction false} EnterKeepsReturn(env: Env, params: seq<int>, args: seq<Maybe>, n: nat)
    requires n <= |params| <= |args|
    ensures env.Enter(params, args, n).ret == -1
  {
    if n > 0 {
      EnterKeepsReturn(env, params, args, n - 1);
    }
  }
}
