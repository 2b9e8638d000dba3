/** Where remembering calls is not transparent: a planned policy that passes first the
    empty string and then an undefined value to the same function. */
module Collisions {
  import opened ByteCodec
  import opened Ir
  import opened Evaluation
  import opened EvaluationSteps
  import opened Memoization
  import opened Transparency

  /** Returns null if its argument is defined. */
  function Probe(): Func<nat> { Func("probe", [0, 1, 2], 3, [ProbeBlock()]) }

  function ProbeBlock(): Block<nat> { Block([IsDefined(2), MakeNull(3), ReturnLocal(3)]) }

  function ProbeCall(arg: Operand, result: int): Stmt<nat> {
    Call(0, [Operand.Local(INPUT), Operand.Local(DATA), arg], result)
  }

  /** Probes the first string of the policy, then a local that is never assigned; what the
      second probe returns is the result. */
  function ProbePlan(): seq<Block<nat>> {
    [Block([ProbeCall(StringIndex(0), 4)]), Block([ProbeCall(Operand.Local(5), 6), ResultSetAdd(6)])]
  }

  ghost predicate Probing(env: Env) { env.funcs == [Probe()] && env.ops.text(0) == Str("") }

  lemma ProbingIsValid(env: Env)
    requires env.funcs == [Probe()]
    ensures env.Valid() && CallsBelow(IsDefined(2), 0) && CallsBelow(MakeNull(3), 0) && CallsBelow(ReturnLocal(3), 0)
    ensures BlockCallsBelow(ProbeBlock(), 0)
  {
  }

  // ---- The probe's own run ----

  lemma FlatEval(env: Env, n: nat, s: Stmt<nat>, fr: Frame, memo: Memo)
    requires env.Valid() && n <= |env.funcs| && (s.IsDefined? || s.MakeNull? || s.ReturnLocal? || s.ResultSetAdd?)
    ensures CallsBelow(s, n) && Eval(env, n, s, fr, memo) == Lifted(Step(env.ops, s, fr), memo)
  {
    hide Eval, Step, Lifted;
    EvalParts(env, n, s, fr, memo);
  }

  lemma TestEval(env: Env, fr: Frame, memo: Memo)
    requires env.Valid()
    ensures CallsBelow(IsDefined(2), 0)
    ensures Eval(env, 0, IsDefined(2), fr, memo) == Done(fr.Get(2).None?, 0, fr, memo, NOTHING)
  {
    hide Eval;
    FlatEval(env, 0, IsDefined(2), fr, memo);
  }

  lemma NullEval(env: Env, fr: Frame, memo: Memo)
    requires env.Valid()
    ensures CallsBelow(MakeNull(3), 0)
    ensures Eval(env, 0, MakeNull(3), fr, memo) == Through(fr.Set(3, Some(env.ops.nil)), memo)
  {
    hide Eval;
    FlatEval(env, 0, MakeNull(3), fr, memo);
  }

  lemma ReturnEval(env: Env, fr: Frame, memo: Memo)
    requires env.Valid()
    ensures CallsBelow(ReturnLocal(3), 0)
    ensures Eval(env, 0, ReturnLocal(3), fr, memo) == Through(fr.Return(3), memo)
  {
    hide Eval;
    FlatEval(env, 0, ReturnLocal(3), fr, memo);
  }

  /** Nothing was added to the result set, and no arguments were passed. */
  predicate Silent(t: Trace) { t.adds == {} && t.blanks == {} }

  lemma ProbeBlockRuns(env: Env, fr: Frame, memo: Memo)
    requires env.funcs == [Probe()] && env.Valid() && BlockCallsBelow(ProbeBlock(), 0) && fr.ret == -1
    ensures var o := EvalBlock(env, 0, ProbeBlock(), fr, memo);
            && o.Done? && o.memo == memo && Silent(o.trace)
            && (if fr.Get(2).Some? then o.frame.ret == 3 && o.frame.Get(3) == Some(env.ops.nil) else o.frame.ret < 0)
  {
    hide EvalStmts, Eval, Dispatched, EvalBlock, CallsBelow, FuncCallsBelow, Step, After;
    var ss := ProbeBlock().stmts;
    assert forall i | 0 <= i < |ss| :: CallsBelow(ss[i], 0);
    var fr' := fr.Set(3, Some(env.ops.nil));
    TestEval(env, fr, memo);
    NullEval(env, fr, memo);
    ReturnEval(env, fr', memo);
    EvalStmtsStep(env, 0, ss, 0, fr, memo);
    EvalStmtsStep(env, 0, ss, 1, fr, memo);
    EvalStmtsStep(env, 0, ss, 2, fr', memo);
    EvalStmtsStep(env, 0, ss, 3, fr'.Return(3), memo);
    EvalBlockParts(env, 0, ProbeBlock(), fr, memo);
    AfterNothing(EvalStmts(env, 0, ss, 1, fr, memo));
    AfterNothing(EvalStmts(env, 0, ss, 2, fr', memo));
    AfterNothing(EvalStmts(env, 0, ss, 3, fr'.Return(3), memo));
  }

  lemma AfterNothing(o: Outcome)
    ensures After(NOTHING, o) == o
  {
    PlusNothing(o.trace);
  }

  lemma ProbeRuns(env: Env, args: seq<Maybe>, memo: Memo)
    requires env.funcs == [Probe()] && env.Valid() && |args| == 3
    ensures var r := RunFunc(env, 0, args, memo);
            r.Returned? && r.has == args[2].Some? && (r.has ==> r.value == Some(env.ops.nil)) && r.memo == memo && Silent(r.trace)
  {
    hide RunFunc, EvalBlocks, EvalBlock, FuncCallsBelow;
    ProbingIsValid(env);
    RunParts(env, 0, args, memo);
    var fr := env.Enter([0, 1, 2], args, 3);
    EnterKeepsReturn(env, [0, 1, 2], args, 3);
    assert fr == env.Enter([0, 1, 2], args, 2).Set(2, args[2]);
    ProbeBlockRuns(env, fr, memo);
    var o := EvalBlock(env, 0, ProbeBlock(), fr, memo);
    EvalBlocksStep(env, 0, [ProbeBlock()], 0, fr, memo);
    EvalBlocksStep(env, 0, [ProbeBlock()], 1, o.frame, memo);
    PlusNothing(NOTHING);
  }

  /** A call of the probe, remembered under `key` or not. */
  lemma ProbeReturns(env: Env, args: seq<Maybe>, memo: Memo)
    requires env.funcs == [Probe()] && env.Valid() && |args| == 3 && Blankish(args[2])
    ensures var key, r := KeyOf(0, [args[2]]), EvalFunc(env, 0, args, memo);
            && key == KeyOf(0, [None]) && r.Returned? && r.trace.adds == {} && r.trace.blanks == {args[2]}
            && (env.memoize && key in memo ==> r.memo == memo && r.has == memo[key].Some? && r.value == memo[key])
            && (!(env.memoize && key in memo) ==>
                  && r.has == args[2].Some? && (r.has ==> r.value == Some(env.ops.nil))
                  && r.memo == if env.memoize then memo[key := if r.has then r.value else None] else memo)
  {
    hide EvalFunc, RunFunc, FuncCallsBelow;
    var own := args[2..3];
    assert own == [args[2]];
    KeysAgree(0, 0, own, [None]);
    ProbeRuns(env, args, memo);
    FuncCall(env, 0, args, memo);
    assert Blanks(own) == {args[2]};
    PlusNothing(Trace({}, Blanks(own), 0));
  }

  // ---- The plan ----

  lemma CallEval(env: Env, arg: Operand, result: int, fr: Frame, memo: Memo)
    requires env.funcs == [Probe()] && env.Valid()
    ensures CallsBelow(ProbeCall(arg, result), 1)
    ensures Eval(env, 1, ProbeCall(arg, result), fr, memo)
         == CallStep(EvalFunc(env, 0, [fr.Get(INPUT), fr.Get(DATA), fr.Val(env.ops, arg)], memo), result, fr)
  {
    hide Eval, EvalFunc, CallStep, FuncCallsBelow;
    var s := ProbeCall(arg, result);
    EvalParts(env, 1, s, fr, memo);
    assert fr.Vals(env.ops, s.args) == [fr.Get(INPUT), fr.Get(DATA), fr.Val(env.ops, arg)];
  }

  lemma FirstBlock(env: Env, fr: Frame)
    requires Probing(env) && env.Valid()
    ensures BlockCallsBelow(ProbePlan()[0], 1)
    ensures EvalBlock(env, 1, ProbePlan()[0], fr, map[]) ==
            Done(false, 0, fr.Set(4, Some(env.ops.nil)),
                 if env.memoize then map[KeyOf(0, [None]) := Some(env.ops.nil)] else map[],
                 Trace({}, {Some(Str(""))}, EvalBlock(env, 1, ProbePlan()[0], fr, map[]).trace.steps))
  {
    hide Eval, EvalStmts, EvalBlock, Dispatched, EvalFunc, FuncCallsBelow, CallsBelow, KeyOf;
    var ss := ProbePlan()[0].stmts;
    CallEval(env, StringIndex(0), 4, fr, map[]);
    EvalBlockParts(env, 1, ProbePlan()[0], fr, map[]);
    ProbeReturns(env, [fr.Get(INPUT), fr.Get(DATA), Some(Str(""))], map[]);
    var o := Eval(env, 1, ss[0], fr, map[]);
    EvalStmtsStep(env, 1, ss, 0, fr, map[]);
    EvalStmtsStep(env, 1, ss, 1, o.frame, o.memo);
    PlusNothing(o.trace);
  }

  lemma AddEval(env: Env, fr: Frame, memo: Memo)
    requires env.Valid() && 1 <= |env.funcs|
    ensures CallsBelow(ResultSetAdd(6), 1)
    ensures Eval(env, 1, ResultSetAdd(6), fr, memo)
         == Done(false, 0, fr, memo, Trace(if fr.Get(6).Some? then {fr.Get(6).value} else {}, {}, 0))
  {
    hide Eval;
    FlatEval(env, 1, ResultSetAdd(6), fr, memo);
  }

  /** The second probe, answered from the memory of the first or run on its own. */
  lemma SecondBlock(env: Env, fr: Frame, memo: Memo)
    requires Probing(env) && env.Valid() && fr.Get(5) == None
    requires memo == if env.memoize then map[KeyOf(0, [None]) := Some(env.ops.nil)] else map[]
    ensures BlockCallsBelow(ProbePlan()[1], 1)
    ensures var o := EvalBlock(env, 1, ProbePlan()[1], fr, memo);
            o.Done? && o.trace.adds == (if env.memoize then {env.ops.nil} else {}) && o.trace.blanks == {None}
  {
    hide Eval, EvalStmts, EvalBlock, Dispatched, EvalFunc, FuncCallsBelow, CallsBelow, KeyOf, Step;
    var ss := ProbePlan()[1].stmts;
    CallEval(env, Operand.Local(5), 6, fr, memo);
    ProbeReturns(env, [fr.Get(INPUT), fr.Get(DATA), None], memo);
    var o := Eval(env, 1, ss[0], fr, memo);
    assert o.Done? && o.stop == !env.memoize;
    AddEval(env, o.frame, o.memo);
    EvalBlockParts(env, 1, ProbePlan()[1], fr, memo);
    EvalStmtsStep(env, 1, ss, 0, fr, memo);
    if env.memoize {
      var o' := Eval(env, 1, ss[1], o.frame, o.memo);
      EvalStmtsStep(env, 1, ss, 1, o.frame, o.memo);
      EvalStmtsStep(env, 1, ss, 2, o'.frame, o'.memo);
      PlusNothing(o'.trace);
    }
  }

  lemma PlanRuns(env: Env)
    requires Probing(env)
    ensures env.Valid() && forall i | 0 <= i < |ProbePlan()| :: BlockCallsBelow(ProbePlan()[i], |env.funcs|)
    ensures PlanResult(env, ProbePlan()) == Ok(if env.memoize then {env.ops.nil} else {})
    ensures PassedBlanks(env, ProbePlan()) == {None, Some(Str(""))}
  {
    hide EvalBlock, EvalBlocks, FuncCallsBelow, BlockCallsBelow, KeyOf;
    ProbingIsValid(env);
    var bs, fr := ProbePlan(), env.Fresh();
    FirstBlock(env, fr);
    var o := EvalBlock(env, 1, bs[0], fr, map[]);
    SecondBlock(env, o.frame, o.memo);
    var o' := EvalBlock(env, 1, bs[1], o.frame, o.memo);
    EvalBlocksStep(env, 1, bs, 0, fr, map[]);
    EvalBlocksStep(env, 1, bs, 1, o.frame, o.memo);
    EvalBlocksStep(env, 1, bs, 2, o'.frame, o'.memo);
    PlusNothing(o'.trace);
    assert {Some(Str(""))} + {None} == {None, Some(Str(""))};
  }

  /** A wrong answer: the plan is planned code, and its result with remembered calls is
      not its result. */
  lemma BlankArgumentsCollide(env: Env)
    requires Probing(env) && env.memoize
    ensures Planned(env) && BlocksTame(env.funcs, ProbePlan()) && Plain(env).Valid()
    ensures forall i | 0 <= i < |ProbePlan()| :: BlockCallsBelow(ProbePlan()[i], |env.funcs|)
    ensures PlanResult(env, ProbePlan()) == Ok({env.ops.nil}) && PlanResult(Plain(env), ProbePlan()) == Ok({})
  {
    hide PlanResult, PassedBlanks, FuncCallsBelow, BlockCallsBelow;
    PlanRuns(env);
    PlanRuns(Plain(env));
    ProbeIsPlanned(env.funcs);
  }

  lemma ProbeIsPlanned(funcs: seq<Func<nat>>)
    requires funcs == [Probe()]
    ensures FuncTame(funcs, Probe()) && BlocksTame(funcs, ProbePlan())
  {
    hide Tame;
    TameStmts(funcs);
    var first := ProbePlan()[0];
    assert first.stmts == [ProbeCall(StringIndex(0), 4)] && BlockTame(funcs, first);
  }

  lemma TameStmts(funcs: seq<Func<nat>>)
    requires funcs == [Probe()]
    ensures Tame(funcs, IsDefined(2)) && Tame(funcs, MakeNull(3)) && Tame(funcs, ResultSetAdd(6))
    ensures Tame(funcs, ProbeCall(StringIndex(0), 4)) && Tame(funcs, ProbeCall(Operand.Local(5), 6))
  {
  }
}
