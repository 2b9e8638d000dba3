/** Remembering the results of calls changes nothing: planned code gives the same with
    and without, as long as not both undefined and the empty string are passed to
    functions whose calls are remembered. */
module Transparency {
  import opened ByteCodec
  import opened Ir
  import opened Evaluation
  import opened EvaluationSteps
  import opened Memoization

  /** The input and data documents that remembered calls are for. */
  datatype Inputs = Inputs(input: Maybe, data: Maybe)

  function InputsOf(fr: Frame): Inputs { Inputs(fr.Get(INPUT), fr.Get(DATA)) }

  function Plain(env: Env): Env { env.(memoize := false) }

  /** The argument that a key stands for, if `taboo` is never passed. */
  function ArgValue(a: Arg, taboo: Maybe): Maybe {
    if a.a.Some? then a.a else if a.s == "" && taboo != None then None else Some(Str(a.s))
  }

  function ArgValues(args: seq<Arg>, taboo: Maybe): (r: seq<Maybe>)
    ensures |r| == |args|
  {
    seq(|args|, i requires 0 <= i < |args| => ArgValue(args[i], taboo))
  }

  lemma ArgValuesOfKey(idx: nat, args: seq<Maybe>, taboo: Maybe)
    requires Blankish(taboo) && taboo !in args
    ensures ArgValues(KeyOf(idx, args).args, taboo) == args
  {
    forall i | 0 <= i < |args| ensures ArgValue(H(args[i]), taboo) == args[i] {
      assert args[i] in args;
    }
  }

  ghost predicate Planned(env: Env) {
    env.Valid() && forall i | 0 <= i < |env.funcs| :: FuncTame(env.funcs, env.funcs[i])
  }

  lemma PlainIsValid(env: Env)
    requires env.Valid()
    ensures Plain(env).Valid()
  {
    hide FuncCallsBelow;
  }

  /** A remembered call is what evaluating the call for these documents gives, and what it
      adds to the result set is there already. */
  ghost predicate EntryOK(env: Env, inputs: Inputs, key: Key, v: Maybe, results: set<Value>, taboo: Maybe) {
    && env.Valid() && key.idx < |env.funcs|
    && var r := EvalFunc(env, key.idx, [inputs.input, inputs.data] + ArgValues(key.args, taboo), map[]);
       r.Returned? && r.has == v.Some? && (r.has ==> r.value == v) && r.memo == map[] && r.trace.adds <= results
  }

  ghost predicate MemoOK(env: Env, inputs: Inputs, memo: Memo, results: set<Value>, taboo: Maybe) {
    forall key | key in memo :: EntryOK(env, inputs, key, memo[key], results, taboo)
  }

  lemma MemoStays(env: Env, inputs: Inputs, memo: Memo, results: set<Value>, more: set<Value>, taboo: Maybe)
    requires MemoOK(env, inputs, memo, results, taboo) && results <= more
    ensures MemoOK(env, inputs, memo, more, taboo)
  {
    hide EvalFunc;
    forall key | key in memo ensures EntryOK(env, inputs, key, memo[key], more, taboo) {
      assert EntryOK(env, inputs, key, memo[key], results, taboo);
    }
  }

  /** The outcome `om` with remembered calls agrees with the plain outcome `o`. */
  ghost predicate Agree(env: Env, om: Outcome, o: Outcome, inputs: Inputs, results: set<Value>, taboo: Maybe) {
    && (om.Fail? <==> o.Fail?) && (om.Fail? ==> om.error == o.error)
    && (om.Done? ==>
          && om.stop == o.stop && om.index == o.index && om.frame == o.frame && o.memo == map[]
          && results + om.trace.adds == results + o.trace.adds
          && MemoOK(env, inputs, om.memo, results + o.trace.adds, taboo))
  }

  ghost predicate AgreeCall(env: Env, rm: Result, r: Result, inputs: Inputs, results: set<Value>, taboo: Maybe) {
    && (rm.Failed? <==> r.Failed?) && (rm.Failed? ==> rm.error == r.error)
    && (rm.Returned? ==>
          && rm.has == r.has && (rm.has ==> rm.value == r.value) && r.memo == map[]
          && results + rm.trace.adds == results + r.trace.adds
          && MemoOK(env, inputs, rm.memo, results + r.trace.adds, taboo))
  }

  // ---- How agreement composes ----

  lemma AgreeThrough(env: Env, fr: Frame, memo: Memo, inputs: Inputs, results: set<Value>, taboo: Maybe)
    requires MemoOK(env, inputs, memo, results, taboo)
    ensures Agree(env, Through(fr, memo), Through(fr, map[]), inputs, results, taboo)
  {
    hide MemoOK;
    assert results + {} == results;
  }

  lemma AgreeFails(env: Env, e: Error, inputs: Inputs, results: set<Value>, taboo: Maybe)
    ensures Agree(env, Fails(e), Fails(e), inputs, results, taboo)
  {
  }

  lemma AgreeAfter(env: Env, om: Outcome, o: Outcome, nextm: Outcome, next: Outcome, inputs: Inputs, results: set<Value>,
                   taboo: Maybe)
    requires om.Done? && Agree(env, om, o, inputs, results, taboo)
    requires Agree(env, nextm, next, inputs, results + o.trace.adds, taboo)
    ensures Agree(env, After(om.trace, nextm), After(o.trace, next), inputs, results, taboo)
  {
    hide MemoOK;
    assert results + (om.trace.adds + nextm.trace.adds) == results + om.trace.adds + nextm.trace.adds;
    assert results + (o.trace.adds + next.trace.adds) == results + o.trace.adds + next.trace.adds;
  }

  lemma AgreeLeaves(env: Env, om: Outcome, o: Outcome, inputs: Inputs, results: set<Value>, taboo: Maybe)
    requires Agree(env, om, o, inputs, results, taboo)
    ensures Agree(env, LeaveBlock(om), LeaveBlock(o), inputs, results, taboo)
    ensures Agree(env, LeaveNot(om), LeaveNot(o), inputs, results, taboo)
  {
    hide MemoOK;
  }

  /** How many statements were dispatched does not matter. */
  lemma AgreeTicks(env: Env, om: Outcome, o: Outcome, dm: nat, d: nat, inputs: Inputs, results: set<Value>, taboo: Maybe)
    requires Agree(env, om, o, inputs, results, taboo)
    ensures Agree(env, After(Ticks(dm), om), After(Ticks(d), o), inputs, results, taboo)
  {
    hide MemoOK;
    assert {} + om.trace.adds == om.trace.adds && {} + o.trace.adds == o.trace.adds;
  }

  lemma AgreeWith(env: Env, om: Outcome, o: Outcome, inner: Inputs, local: int, saved: Maybe, memo: Memo, inputs: Inputs,
                  results: set<Value>, taboo: Maybe)
    requires Agree(env, om, o, inner, results, taboo) && MemoOK(env, inputs, memo, results, taboo)
    ensures Agree(env, LeaveWith(om, local, saved, memo), LeaveWith(o, local, saved, map[]), inputs, results, taboo)
  {
    MemoStays(env, inputs, memo, results, results + o.trace.adds, taboo);
    hide MemoOK;
  }

  lemma AgreeFlat(env: Env, e: Effect, memo: Memo, inputs: Inputs, results: set<Value>, taboo: Maybe)
    requires MemoOK(env, inputs, memo, results, taboo)
    ensures Agree(env, Lifted(e, memo), Lifted(e, map[]), inputs, results, taboo)
  {
    if e.Good? {
      MemoStays(env, inputs, memo, results, results + e.adds, taboo);
    }
    hide MemoOK;
  }

  lemma AgreeStep(env: Env, rm: Result, r: Result, result: int, fr: Frame, inputs: Inputs, results: set<Value>, taboo: Maybe)
    requires AgreeCall(env, rm, r, inputs, results, taboo)
    ensures Agree(env, CallStep(rm, result, fr), CallStep(r, result, fr), inputs, results, taboo)
  {
    hide MemoOK;
  }

  lemma BlanksBefore(t: Trace, o: Outcome, taboo: Maybe)
    requires taboo !in After(t, o).trace.blanks
    ensures taboo !in t.blanks && taboo !in o.trace.blanks
  {
  }

  lemma LeavesTrace(o: Outcome, local: int, saved: Maybe, memo: Memo)
    ensures LeaveBlock(o).trace == LeaveNot(o).trace == LeaveWith(o, local, saved, memo).trace == o.trace
  {
  }

  // ---- Statements ----

  lemma {:induction false} EvalAgrees(env: Env, n: nat, s: Stmt<nat>, fr: Frame, memo: Memo, results: set<Value>, taboo: Maybe)
    requires Planned(env) && Plain(env).Valid() && Blankish(taboo) && n <= |env.funcs| && CallsBelow(s, n)
    requires Tame(env.funcs, s) || s.ReturnLocal?
    requires MemoOK(Plain(env), InputsOf(fr), memo, results, taboo)
    requires taboo !in Eval(Plain(env), n, s, fr, map[]).trace.blanks
    ensures Agree(Plain(env), Eval(env, n, s, fr, memo), Eval(Plain(env), n, s, fr, map[]), InputsOf(fr), results, taboo)
    decreases 2 * n, s, 1, 0
  {
    hide *;
    hide Env.Valid;
    var plain := Plain(env);
    SameButMemo(env);
    EvalParts(env, n, s, fr, memo);
    EvalParts(plain, n, s, fr, map[]);
    if Tame(env.funcs, s) {
      TameParts(env.funcs, s);
    }
    if s.BlockStmt? {
      BlockStmtAgrees(env, n, s.blocks, 0, fr, memo, results, taboo);
    } else if s.Not? {
      LeavesTrace(EvalStmts(plain, n, s.block.stmts, 0, fr, map[]), 0, None, map[]);
      TailTameBlock(env.funcs, s.block);
      StmtsAgree(env, n, s.block.stmts, 0, fr, memo, results, taboo);
      AgreeLeaves(plain, EvalStmts(env, n, s.block.stmts, 0, fr, memo), EvalStmts(plain, n, s.block.stmts, 0, fr, map[]),
                  InputsOf(fr), results, taboo);
    } else if s.Scan? {
      ScanStmtAgrees(env, n, s, fr, memo, results, taboo);
    } else if s.With? {
      WithAgrees(env, n, s, fr, memo, results, taboo);
    } else if s.Call? {
      CallAgrees(env, n, s, fr, memo, results, taboo);
    } else {
      FlatAgrees(env, n, s, fr, memo, results, taboo);
    }
  }

  lemma SameButMemo(env: Env)
    ensures var p := Plain(env); p.ops == env.ops && p.funcs == env.funcs && p.input == env.input && p.data == env.data && !p.memoize
    ensures Planned(env) ==> env.Valid()
  {
  }

  lemma FlatAgrees(env: Env, n: nat, s: Stmt<nat>, fr: Frame, memo: Memo, results: set<Value>, taboo: Maybe)
    requires env.Valid() && Plain(env).Valid() && n <= |env.funcs| && CallsBelow(s, n)
    requires !s.BlockStmt? && !s.Not? && !s.Scan? && !s.With? && !s.Call?
    requires MemoOK(Plain(env), InputsOf(fr), memo, results, taboo)
    ensures Agree(Plain(env), Eval(env, n, s, fr, memo), Eval(Plain(env), n, s, fr, map[]), InputsOf(fr), results, taboo)
  {
    hide Eval, MemoOK, Agree;
    SameButMemo(env);
    EvalParts(env, n, s, fr, memo);
    EvalParts(Plain(env), n, s, fr, map[]);
    AgreeFlat(Plain(env), Step(env.ops, s, fr), memo, InputsOf(fr), results, taboo);
  }

  lemma {:induction false} ScanStmtAgrees(env: Env, n: nat, s: Stmt<nat>, fr: Frame, memo: Memo, results: set<Value>, taboo: Maybe)
    requires Planned(env) && Plain(env).Valid() && Blankish(taboo) && n <= |env.funcs| && CallsBelow(s, n)
    requires s.Scan? && Tame(env.funcs, s) && MemoOK(Plain(env), InputsOf(fr), memo, results, taboo)
    requires taboo !in Eval(Plain(env), n, s, fr, map[]).trace.blanks
    ensures Agree(Plain(env), Eval(env, n, s, fr, memo), Eval(Plain(env), n, s, fr, map[]), InputsOf(fr), results, taboo)
    decreases 2 * n, s, 0, 0
  {
    hide Eval, EvalScan, CallsBelow, Tame, MemoOK, Agree, Planned, Env.Valid, BlockTame, BlockCallsBelow, LeaveBlock, FlatTame;
    var plain := Plain(env);
    SameButMemo(env);
    ScanLocals(env.funcs, s);
    EvalScanParts(env, n, s, fr, memo);
    EvalScanParts(plain, n, s, fr, map[]);
    var r := env.ops.iter(fr.Get(s.local));
    if r.Err? {
      AgreeFails(plain, r.error, InputsOf(fr), results, taboo);
    } else {
      var om := EvalScan(env, n, s.keyLocal, s.valueLocal, s.block, r.v, 0, fr, memo);
      var o := EvalScan(plain, n, s.keyLocal, s.valueLocal, s.block, r.v, 0, fr, map[]);
      LeavesTrace(o, 0, None, map[]);
      ElementsAgree(env, n, s.keyLocal, s.valueLocal, s.block, r.v, 0, fr, memo, results, taboo);
      AgreeLeaves(plain, om, o, InputsOf(fr), results, taboo);
    }
  }

  lemma ScanLocals(funcs: seq<Func<nat>>, s: Stmt<nat>)
    requires s.Scan? && Tame(funcs, s)
    ensures BlockTame(funcs, s.block)
    ensures s.keyLocal != INPUT && s.keyLocal != DATA && s.valueLocal != INPUT && s.valueLocal != DATA
  {
    hide BlockTame;
    assert s.keyLocal in Writes(s) && s.valueLocal in Writes(s);
  }

  lemma {:induction false} WithAgrees(env: Env, n: nat, s: Stmt<nat>, fr: Frame, memo: Memo, results: set<Value>, taboo: Maybe)
    requires Planned(env) && Plain(env).Valid() && Blankish(taboo) && n <= |env.funcs| && CallsBelow(s, n)
    requires s.With? && Tame(env.funcs, s) && MemoOK(Plain(env), InputsOf(fr), memo, results, taboo)
    requires taboo !in Eval(Plain(env), n, s, fr, map[]).trace.blanks
    ensures Agree(Plain(env), Eval(env, n, s, fr, memo), Eval(Plain(env), n, s, fr, map[]), InputsOf(fr), results, taboo)
    decreases 2 * n, s, 0, 0
  {
    hide Eval, EvalStmts, CallsBelow, Tame, Agree, Planned, Env.Valid, BlockTame, TailTame, EntryOK, LeaveWith, Upsert;
    var plain := Plain(env);
    SameButMemo(env);
    TameParts(env.funcs, s);
    TailTameBlock(env.funcs, s.block);
    EvalWithParts(env, n, s, fr, memo);
    EvalWithParts(plain, n, s, fr, map[]);
    var r := Upsert(env.ops, fr.Get(s.local), s.segments, fr.Val(env.ops, s.item));
    if r.Err? {
      AgreeFails(plain, r.error, InputsOf(fr), results, taboo);
    } else {
      var fr' := fr.Set(s.local, r.v);
      var om, o := EvalStmts(env, n, s.block.stmts, 0, fr', map[]), EvalStmts(plain, n, s.block.stmts, 0, fr', map[]);
      LeavesTrace(o, s.local, fr.Get(s.local), map[]);
      StmtsAgree(env, n, s.block.stmts, 0, fr', map[], results, taboo);
      AgreeWith(plain, om, o, InputsOf(fr'), s.local, fr.Get(s.local), memo, InputsOf(fr), results, taboo);
    }
  }

  lemma {:induction false} CallAgrees(env: Env, n: nat, s: Stmt<nat>, fr: Frame, memo: Memo, results: set<Value>, taboo: Maybe)
    requires Planned(env) && Plain(env).Valid() && Blankish(taboo) && n <= |env.funcs| && CallsBelow(s, n)
    requires s.Call? && Tame(env.funcs, s) && MemoOK(Plain(env), InputsOf(fr), memo, results, taboo)
    requires taboo !in Eval(Plain(env), n, s, fr, map[]).trace.blanks
    ensures Agree(Plain(env), Eval(env, n, s, fr, memo), Eval(Plain(env), n, s, fr, map[]), InputsOf(fr), results, taboo)
    decreases 2 * n, s, 0, 0
  {
    hide Eval, EvalFunc, CallsBelow, Tame, MemoOK, Agree, AgreeCall, Planned, Env.Valid;
    var plain := Plain(env);
    SameButMemo(env);
    EvalParts(env, n, s, fr, memo);
    EvalParts(plain, n, s, fr, map[]);
    TameParts(env.funcs, s);
    CallInputs(env.funcs, s, env.ops, fr);
    var args := fr.Vals(env.ops, s.args);
    assert fr.Vals(plain.ops, s.args) == args;
    var rm, r := EvalFunc(env, s.func, args, memo), EvalFunc(plain, s.func, args, map[]);
    StepTrace(r, s.result, fr);
    if env.funcs[s.func].Builtin? {
      BuiltinAgrees(env, s.func, args, memo, InputsOf(fr), results, taboo);
    } else {
      FuncAgrees(env, s.func, args, memo, results, taboo);
    }
    AgreeStep(plain, rm, r, s.result, fr, InputsOf(fr), results, taboo);
  }

  lemma StepTrace(r: Result, result: int, fr: Frame)
    ensures CallStep(r, result, fr).trace == r.trace
  {
  }

  /** A call to a function passes the caller's documents on. */
  lemma CallInputs(funcs: seq<Func<nat>>, s: Stmt<nat>, ops: Ops, fr: Frame)
    requires s.Call? && FlatTame(funcs, s)
    ensures s.func < |funcs| && funcs[s.func].Func? ==>
              && |s.args| >= |funcs[s.func].params| >= 2
              && fr.Vals(ops, s.args)[0] == fr.Get(INPUT) && fr.Vals(ops, s.args)[1] == fr.Get(DATA)
  {
  }

  lemma BuiltinAgrees(env: Env, i: nat, args: seq<Maybe>, memo: Memo, inputs: Inputs, results: set<Value>, taboo: Maybe)
    requires env.Valid() && Plain(env).Valid() && i < |env.funcs| && env.funcs[i].Builtin?
    requires MemoOK(Plain(env), inputs, memo, results, taboo)
    ensures AgreeCall(Plain(env), EvalFunc(env, i, args, memo), EvalFunc(Plain(env), i, args, map[]), inputs, results, taboo)
  {
    hide MemoOK, EvalFunc, Env.Valid;
    SameButMemo(env);
    BuiltinCall(env, i, args, memo);
    BuiltinCall(Plain(env), i, args, map[]);
    assert results + {} == results;
  }

  lemma {:induction false} StmtsAgree(env: Env, n: nat, ss: seq<Stmt<nat>>, k: nat, fr: Frame, memo: Memo, results: set<Value>,
                                      taboo: Maybe)
    requires Planned(env) && Plain(env).Valid() && Blankish(taboo) && n <= |env.funcs| && k <= |ss|
    requires (forall i | 0 <= i < |ss| :: CallsBelow(ss[i], n)) && TailTame(env.funcs, ss)
    requires MemoOK(Plain(env), InputsOf(fr), memo, results, taboo)
    requires taboo !in EvalStmts(Plain(env), n, ss, k, fr, map[]).trace.blanks
    ensures Agree(Plain(env), EvalStmts(env, n, ss, k, fr, memo), EvalStmts(Plain(env), n, ss, k, fr, map[]), InputsOf(fr), results,
                  taboo)
    decreases 2 * n, ss, 0, |ss| - k
  {
    hide Eval, EvalStmts, CallsBelow, Tame, MemoOK, Planned, Env.Valid, After;
    var plain := Plain(env);
    SameButMemo(env);
    EvalStmtsStep(env, n, ss, k, fr, memo);
    EvalStmtsStep(plain, n, ss, k, fr, map[]);
    if k == |ss| {
      AgreeThrough(plain, fr, memo, InputsOf(fr), results, taboo);
    } else {
      var om, o := Eval(env, n, ss[k], fr, memo), Eval(plain, n, ss[k], fr, map[]);
      if o.Done? && !o.stop {
        BlanksBefore(o.trace, EvalStmts(plain, n, ss, k + 1, o.frame, o.memo), taboo);
      }
      EvalAgrees(env, n, ss[k], fr, memo, results, taboo);
      if o.Done? && !o.stop {
        InputsKept(plain, n, ss, k, fr, map[]);
        StmtsAgree(env, n, ss, k + 1, o.frame, om.memo, results + o.trace.adds, taboo);
        AgreeAfter(plain, om, o, EvalStmts(env, n, ss, k + 1, om.frame, om.memo), EvalStmts(plain, n, ss, k + 1, o.frame, map[]),
                   InputsOf(fr), results, taboo);
      }
    }
  }

  lemma InputsKept(env: Env, n: nat, ss: seq<Stmt<nat>>, k: nat, fr: Frame, memo: Memo)
    requires env.Valid() && n <= |env.funcs| && k < |ss| && CallsBelow(ss[k], n) && TailTame(env.funcs, ss)
    ensures var o := Eval(env, n, ss[k], fr, memo); o.Done? ==> InputsOf(o.frame) == InputsOf(fr)
  {
    hide Eval, Tame;
    if Tame(env.funcs, ss[k]) {
      EvalKeeps(env, n, ss[k], fr, memo);
    } else {
      EvalReturn(env, n, ss[k], fr, memo);
    }
  }

  // ---- Blocks ----

  lemma {:induction false} BlockAgrees(env: Env, n: nat, b: Block<nat>, fr: Frame, memo: Memo, results: set<Value>, taboo: Maybe)
    requires Planned(env) && Plain(env).Valid() && Blankish(taboo) && n <= |env.funcs| && BlockCallsBelow(b, n)
    requires TailTame(env.funcs, b.stmts) && MemoOK(Plain(env), InputsOf(fr), memo, results, taboo)
    requires taboo !in EvalBlock(Plain(env), n, b, fr, map[]).trace.blanks
    ensures Agree(Plain(env), EvalBlock(env, n, b, fr, memo), EvalBlock(Plain(env), n, b, fr, map[]), InputsOf(fr), results, taboo)
    decreases 2 * n, b, 0, 0
  {
    hide EvalStmts, EvalBlock, Dispatched, TailTame, MemoOK, Planned, Env.Valid, Agree, LeaveBlock, After;
    var plain := Plain(env);
    SameButMemo(env);
    EvalBlockParts(env, n, b, fr, memo);
    EvalBlockParts(plain, n, b, fr, map[]);
    var om, o := EvalStmts(env, n, b.stmts, 0, fr, memo), EvalStmts(plain, n, b.stmts, 0, fr, map[]);
    var dm, d := Dispatched(env, n, b.stmts, 0, fr, memo), Dispatched(plain, n, b.stmts, 0, fr, map[]);
    LeavesTrace(After(Ticks(d), o), 0, None, map[]);
    StmtsAgree(env, n, b.stmts, 0, fr, memo, results, taboo);
    AgreeTicks(plain, om, o, dm, d, InputsOf(fr), results, taboo);
    AgreeLeaves(plain, After(Ticks(dm), om), After(Ticks(d), o), InputsOf(fr), results, taboo);
  }

  lemma {:induction false} BlockStmtAgrees(env: Env, n: nat, bs: seq<Block<nat>>, k: nat, fr: Frame, memo: Memo,
                                           results: set<Value>, taboo: Maybe)
    requires Planned(env) && Plain(env).Valid() && Blankish(taboo) && n <= |env.funcs| && k <= |bs|
    requires (forall i | 0 <= i < |bs| :: BlockCallsBelow(bs[i], n)) && forall i | 0 <= i < |bs| :: BlockTame(env.funcs, bs[i])
    requires MemoOK(Plain(env), InputsOf(fr), memo, results, taboo)
    requires taboo !in EvalBlockStmt(Plain(env), n, bs, k, fr, map[]).trace.blanks
    ensures Agree(Plain(env), EvalBlockStmt(env, n, bs, k, fr, memo), EvalBlockStmt(Plain(env), n, bs, k, fr, map[]), InputsOf(fr),
                  results, taboo)
    decreases 2 * n, bs, 0, |bs| - k
  {
    hide EvalBlock, EvalBlockStmt, BlockCallsBelow, BlockTame, MemoOK, Planned, Env.Valid, After;
    var plain := Plain(env);
    SameButMemo(env);
    EvalBlockStmtStep(env, n, bs, k, fr, memo);
    EvalBlockStmtStep(plain, n, bs, k, fr, map[]);
    if k == |bs| {
      AgreeThrough(plain, fr, memo, InputsOf(fr), results, taboo);
    } else {
      var om, o := EvalBlock(env, n, bs[k], fr, memo), EvalBlock(plain, n, bs[k], fr, map[]);
      if o.Done? && !o.stop {
        BlanksBefore(o.trace, EvalBlockStmt(plain, n, bs, k + 1, o.frame, o.memo), taboo);
      }
      TailTameBlock(env.funcs, bs[k]);
      BlockAgrees(env, n, bs[k], fr, memo, results, taboo);
      if o.Done? && !o.stop {
        EvalBlockKeeps(plain, n, bs[k], fr, map[]);
        BlockStmtAgrees(env, n, bs, k + 1, o.frame, om.memo, results + o.trace.adds, taboo);
        AgreeAfter(plain, om, o, EvalBlockStmt(env, n, bs, k + 1, om.frame, om.memo),
                   EvalBlockStmt(plain, n, bs, k + 1, o.frame, map[]), InputsOf(fr), results, taboo);
      }
    }
  }

  lemma {:induction false} ElementsAgree(env: Env, n: nat, keyLocal: int, valueLocal: int, b: Block<nat>,
                                         elems: seq<(Value, Value)>, k: nat, fr: Frame, memo: Memo, results: set<Value>, taboo: Maybe)
    requires Planned(env) && Plain(env).Valid() && Blankish(taboo) && n <= |env.funcs| && k <= |elems|
    requires BlockCallsBelow(b, n) && BlockTame(env.funcs, b) && MemoOK(Plain(env), InputsOf(fr), memo, results, taboo)
    requires keyLocal != INPUT && keyLocal != DATA && valueLocal != INPUT && valueLocal != DATA
    requires taboo !in EvalScan(Plain(env), n, keyLocal, valueLocal, b, elems, k, fr, map[]).trace.blanks
    ensures Agree(Plain(env), EvalScan(env, n, keyLocal, valueLocal, b, elems, k, fr, memo),
                  EvalScan(Plain(env), n, keyLocal, valueLocal, b, elems, k, fr, map[]), InputsOf(fr), results, taboo)
    decreases 2 * n, b, 1, |elems| - k
  {
    hide EvalBlock, EvalScan, BlockCallsBelow, BlockTame, TailTame, MemoOK, Planned, Env.Valid, After, ScanFrame;
    var plain := Plain(env);
    SameButMemo(env);
    EvalScanStep(env, n, keyLocal, valueLocal, b, elems, k, fr, memo);
    EvalScanStep(plain, n, keyLocal, valueLocal, b, elems, k, fr, map[]);
    if k == |elems| {
      AgreeThrough(plain, fr, memo, InputsOf(fr), results, taboo);
    } else {
      ScanKeepsInputs(fr, keyLocal, valueLocal, elems[k]);
      var fr' := ScanFrame(fr, keyLocal, valueLocal, elems[k]);
      var om, o := EvalBlock(env, n, b, fr', memo), EvalBlock(plain, n, b, fr', map[]);
      if o.Done? && !o.stop {
        BlanksBefore(o.trace, EvalScan(plain, n, keyLocal, valueLocal, b, elems, k + 1, o.frame, o.memo), taboo);
      }
      TailTameBlock(env.funcs, b);
      BlockAgrees(env, n, b, fr', memo, results, taboo);
      if o.Done? && !o.stop {
        EvalBlockKeeps(plain, n, b, fr', map[]);
        ElementsAgree(env, n, keyLocal, valueLocal, b, elems, k + 1, o.frame, om.memo, results + o.trace.adds, taboo);
        AgreeAfter(plain, om, o, EvalScan(env, n, keyLocal, valueLocal, b, elems, k + 1, om.frame, om.memo),
                   EvalScan(plain, n, keyLocal, valueLocal, b, elems, k + 1, o.frame, map[]), InputsOf(fr), results, taboo);
      }
    }
  }

  lemma {:induction false} BlocksAgree(env: Env, n: nat, bs: seq<Block<nat>>, k: nat, fr: Frame, memo: Memo, results: set<Value>,
                                       taboo: Maybe)
    requires Planned(env) && Plain(env).Valid() && Blankish(taboo) && n <= |env.funcs| && k <= |bs|
    requires (forall i | 0 <= i < |bs| :: BlockCallsBelow(bs[i], n)) && BlocksTame(env.funcs, bs) && (k < |bs| ==> fr.ret < 0)
    requires MemoOK(Plain(env), InputsOf(fr), memo, results, taboo)
    requires taboo !in EvalBlocks(Plain(env), n, bs, k, fr, map[]).trace.blanks
    ensures Agree(Plain(env), EvalBlocks(env, n, bs, k, fr, memo), EvalBlocks(Plain(env), n, bs, k, fr, map[]), InputsOf(fr),
                  results, taboo)
    decreases 2 * n, bs, 0, |bs| - k
  {
    hide EvalBlock, EvalBlocks, BlockCallsBelow, BlocksTame, TailTame, MemoOK, Planned, Env.Valid, After;
    var plain := Plain(env);
    SameButMemo(env);
    EvalBlocksStep(env, n, bs, k, fr, memo);
    EvalBlocksStep(plain, n, bs, k, fr, map[]);
    if k == |bs| {
      AgreeThrough(plain, fr, memo, InputsOf(fr), results, taboo);
    } else {
      var om, o := EvalBlock(env, n, bs[k], fr, memo), EvalBlock(plain, n, bs[k], fr, map[]);
      if o.Done? {
        BlanksBefore(o.trace, EvalBlocks(plain, n, bs, k + 1, o.frame, o.memo), taboo);
      }
      BlockKeepsInputs(plain, n, bs, k, fr, map[]);
      BlockAgrees(env, n, bs[k], fr, memo, results, taboo);
      if o.Done? {
        BlocksAgree(env, n, bs, k + 1, o.frame, om.memo, results + o.trace.adds, taboo);
        AgreeAfter(plain, om, o, EvalBlocks(env, n, bs, k + 1, om.frame, om.memo), EvalBlocks(plain, n, bs, k + 1, o.frame, map[]),
                   InputsOf(fr), results, taboo);
      }
    }
  }

  // ---- Functions ----

  /** Entering a planned function puts the documents where they belong. */
  lemma {:induction false} EnterInputs(env: Env, params: seq<int>, args: seq<Maybe>, n: nat)
    requires 2 <= n <= |params| <= |args| && params[0] == INPUT && params[1] == DATA
    requires forall k | 2 <= k < |params| :: params[k] != INPUT && params[k] != DATA
    ensures InputsOf(env.Enter(params, args, n)) == Inputs(args[0], args[1])
  {
    if n > 2 {
      EnterInputs(env, params, args, n - 1);
    } else {
      assert env.Enter(params, args, 2) == env.Enter(params, args, 1).Set(DATA, args[1]);
      assert env.Enter(params, args, 1) == env.Enter(params, args, 0).Set(INPUT, args[0]);
    }
  }

  lemma {:induction false} SameEnter(env: Env, params: seq<int>, args: seq<Maybe>, n: nat)
    requires n <= |params| <= |args|
    ensures env.Enter(params, args[..|params|], n) == env.Enter(params, args, n) == Plain(env).Enter(params, args, n)
  {
    if n > 0 {
      SameEnter(env, params, args, n - 1);
    }
  }

  /** Arguments beyond the parameters do not matter. */
  lemma SameCall(env: Env, i: nat, args: seq<Maybe>, memo: Memo)
    requires env.Valid() && i < |env.funcs| && env.funcs[i].Func? && |args| >= |env.funcs[i].params| >= 2
    ensures EvalFunc(env, i, [args[0], args[1]] + args[2..|env.funcs[i].params|], memo) == EvalFunc(env, i, args, memo)
  {
    hide EvalBlocks, BlockCallsBelow, EvalFunc, RunFunc, KeyOf, Hashable, Blanks;
    var n := |env.funcs[i].params|;
    var own := [args[0], args[1]] + args[2..n];
    assert own == args[..n] && own[2..n] == args[2..n];
    SameEnter(env, env.funcs[i].params, args, n);
    FuncCall(env, i, args, memo);
    FuncCall(env, i, own, memo);
    RunParts(env, i, args, memo);
    RunParts(env, i, own, memo);
  }

  /** A finished call makes a valid entry for the documents it was called with. */
  lemma EntryMade(env: Env, i: nat, args: seq<Maybe>, value: Maybe, results: set<Value>, taboo: Maybe)
    requires env.Valid() && i < |env.funcs| && env.funcs[i].Func? && |args| >= |env.funcs[i].params| >= 2
    requires Blankish(taboo) && taboo !in args[2..|env.funcs[i].params|]
    requires var r := EvalFunc(env, i, args, map[]);
             r.Returned? && r.has == value.Some? && (r.has ==> r.value == value) && r.memo == map[] && r.trace.adds <= results
    ensures EntryOK(env, Inputs(args[0], args[1]), KeyOf(i, args[2..|env.funcs[i].params|]), value, results, taboo)
  {
    hide EvalFunc;
    ArgValuesOfKey(i, args[2..|env.funcs[i].params|], taboo);
    SameCall(env, i, args, map[]);
  }

  /** An entry that is found is the result of this very call. */
  lemma EntryFound(env: Env, i: nat, args: seq<Maybe>, memo: Memo, results: set<Value>, taboo: Maybe)
    requires env.Valid() && i < |env.funcs| && env.funcs[i].Func? && |args| >= |env.funcs[i].params| >= 2
    requires Blankish(taboo) && taboo !in args[2..|env.funcs[i].params|]
    requires MemoOK(env, Inputs(args[0], args[1]), memo, results, taboo)
    requires KeyOf(i, args[2..|env.funcs[i].params|]) in memo
    ensures var r, v := EvalFunc(env, i, args, map[]), memo[KeyOf(i, args[2..|env.funcs[i].params|])];
            r.Returned? && r.has == v.Some? && (r.has ==> r.value == v) && r.memo == map[] && r.trace.adds <= results
  {
    hide EvalFunc;
    var key := KeyOf(i, args[2..|env.funcs[i].params|]);
    ArgValuesOfKey(i, args[2..|env.funcs[i].params|], taboo);
    SameCall(env, i, args, map[]);
    assert EntryOK(env, Inputs(args[0], args[1]), key, memo[key], results, taboo);
  }

  lemma TabooNotPassed(own: seq<Maybe>, taboo: Maybe)
    requires Blankish(taboo) && taboo !in Blanks(own)
    ensures taboo !in own
  {
  }

  lemma {:induction false} FuncAgrees(env: Env, i: nat, args: seq<Maybe>, memo: Memo, results: set<Value>, taboo: Maybe)
    requires Planned(env) && Plain(env).Valid() && Blankish(taboo) && i < |env.funcs| && env.funcs[i].Func?
    requires |args| >= |env.funcs[i].params| >= 2
    requires MemoOK(Plain(env), Inputs(args[0], args[1]), memo, results, taboo)
    requires taboo !in EvalFunc(Plain(env), i, args, map[]).trace.blanks
    ensures AgreeCall(Plain(env), EvalFunc(env, i, args, memo), EvalFunc(Plain(env), i, args, map[]), Inputs(args[0], args[1]), results,
                      taboo)
    decreases 2 * i + 1, 1
  {
    hide EvalFunc, RunFunc, KeyOf, Blanks, Hashable, EntryOK, Planned, Env.Valid;
    var plain, own := Plain(env), args[2..|env.funcs[i].params|];
    SameButMemo(env);
    FuncCall(env, i, args, memo);
    FuncCall(plain, i, args, map[]);
    if !Hashable(own) {
      RunAgrees(env, i, args, memo, results, taboo);
      return;
    }
    TabooNotPassed(own, taboo);
    var r := EvalFunc(plain, i, args, map[]);
    var key := KeyOf(i, own);
    if env.memoize && key in memo {
      EntryFound(plain, i, args, memo, results, taboo);
      assert results + r.trace.adds == results && results + {} == results;
    } else {
      RunAgrees(env, i, args, memo, results, taboo);
      var run, runm := RunFunc(plain, i, args, map[]), RunFunc(env, i, args, memo);
      if run.Returned? {
        TameFunc(env, i);
        ReturnIsDefined(plain, i, args, map[]);
        var v := if run.has then run.value else None;
        NoAdds(own, run.trace);
        NoAdds(own, runm.trace);
        EntryMade(plain, i, args, v, results + r.trace.adds, taboo);
      }
    }
  }

  lemma NoAdds(own: seq<Maybe>, t: Trace)
    ensures Trace({}, Blanks(own), 0).Plus(t).adds == t.adds
  {
  }

  lemma TameFunc(env: Env, i: nat)
    requires Planned(env) && i < |env.funcs|
    ensures FuncTame(env.funcs, env.funcs[i])
  {
    hide FuncTame;
  }

  lemma {:induction false} RunAgrees(env: Env, i: nat, args: seq<Maybe>, memo: Memo, results: set<Value>, taboo: Maybe)
    requires Planned(env) && Plain(env).Valid() && Blankish(taboo) && i < |env.funcs| && env.funcs[i].Func?
    requires |args| >= |env.funcs[i].params| >= 2
    requires MemoOK(Plain(env), Inputs(args[0], args[1]), memo, results, taboo)
    requires taboo !in RunFunc(Plain(env), i, args, map[]).trace.blanks
    ensures AgreeCall(Plain(env), RunFunc(env, i, args, memo), RunFunc(Plain(env), i, args, map[]), Inputs(args[0], args[1]), results,
                      taboo)
    decreases 2 * i + 1, 0
  {
    hide RunFunc, EvalBlocks, MemoOK, Planned, Env.Valid, BlocksTame, BlockCallsBelow;
    var plain, f := Plain(env), env.funcs[i];
    SameButMemo(env);
    TameFunc(env, i);
    RunParts(env, i, args, memo);
    RunParts(plain, i, args, map[]);
    SameEnter(env, f.params, args, |f.params|);
    EnterInputs(env, f.params, args, |f.params|);
    EnterKeepsReturn(env, f.params, args, |f.params|);
    BlocksAgree(env, i, f.blocks, 0, env.Enter(f.params, args, |f.params|), memo, results, taboo);
  }

  // ---- Plans ----

  /** Which of undefined and the empty string a plan passes to functions whose calls can
      be remembered. */
  ghost function PassedBlanks(env: Env, bs: seq<Block<nat>>): set<Maybe>
    requires env.Valid() && forall i | 0 <= i < |bs| :: BlockCallsBelow(bs[i], |env.funcs|)
  {
    EvalBlocks(env, |env.funcs|, bs, 0, env.Fresh(), map[]).trace.blanks
  }

  /** Memoization is transparent: a planned policy that does not pass both undefined and
      the empty string to functions has the same result with remembered calls. */
  lemma MemoizationIsTransparent(env: Env, bs: seq<Block<nat>>)
    requires Planned(env) && (forall i | 0 <= i < |bs| :: BlockCallsBelow(bs[i], |env.funcs|)) && BlocksTame(env.funcs, bs)
    ensures Plain(env).Valid()
    ensures !(None in PassedBlanks(Plain(env), bs) && Some(Str("")) in PassedBlanks(Plain(env), bs)) ==>
              PlanResult(env, bs) == PlanResult(Plain(env), bs)
  {
    SameButMemo(env);
    PlainIsValid(env);
    var taboo := if None in PassedBlanks(Plain(env), bs) then Some(Str("")) else None;
    if taboo !in PassedBlanks(Plain(env), bs) {
      hide EvalBlocks, BlocksTame, BlockCallsBelow, Planned, Env.Valid, EntryOK;
      BlocksAgree(env, |env.funcs|, bs, 0, env.Fresh(), map[], {}, taboo);
      var om := EvalBlocks(env, |env.funcs|, bs, 0, env.Fresh(), map[]);
      var o := EvalBlocks(Plain(env), |env.funcs|, bs, 0, env.Fresh(), map[]);
      assert om.Done? ==> om.trace.adds == {} + om.trace.adds == {} + o.trace.adds == o.trace.adds;
    }
  }
}
