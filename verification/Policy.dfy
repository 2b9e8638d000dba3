/** From the policy to its result: compiling a policy's functions and a plan, and running
    the bytes. */
module Policies {
  import opened ByteCodec
  import opened Ir
  import opened Bytecode
  import opened Executables
  import opened Evaluation
  import opened Memoization
  import opened Transparency
  import opened Machines
  import Compilers
  import CodeWriters

  /** A policy as the planner hands it over. */
  datatype Policy = Policy(builtins: seq<string>, available: set<string>, funcs: seq<Func<string>>, plan: seq<Block<string>>) {
    ghost predicate Planned() { forall i | 0 <= i < |funcs| :: funcs[i].Func? }
  }

  /** What a policy compiles to: functions and a plan with all names resolved. */
  datatype Code = Code(funcs: seq<Func<nat>>, plan: seq<Block<nat>>)

  ghost predicate CallsDescend(code: Code) {
    && (forall i | 0 <= i < |code.funcs| :: FuncCallsBelow(code.funcs[i], i))
    && (forall i | 0 <= i < |code.plan| :: BlockCallsBelow(code.plan[i], |code.funcs|))
  }

  lemma ResolvedDescends(p: Policy, program: Compilers.Program, plan: seq<Block<nat>>)
    requires p.Planned() && Compilers.Compile(p.builtins, p.available, p.funcs) == Some(program)
    requires Compilers.ResolveBlocks(p.plan, |p.plan|, program.index) == Some(plan)
    ensures CallsDescend(Code(program.funcs, plan))
  {
    Compilers.CompiledCallsDescend(p.builtins, p.available, p.funcs);
    Compilers.ResolveBlocksCallBelow(p.plan, |p.plan|, program.index, |program.funcs|);
  }

  /** Whatever compiles can be evaluated: no function calls a later one, so no budget is
      needed for evaluation to end. */
  ghost function Compiled(p: Policy): (r: Option<Code>)
    requires p.Planned()
    ensures r.Some? ==> CallsDescend(r.value)
  {
    var program := Compilers.Compile(p.builtins, p.available, p.funcs);
    if program.None? then None
    else
      var plan := Compilers.ResolveBlocks(p.plan, |p.plan|, program.value.index);
      if plan.None? then None
      else
        ResolvedDescends(p, program.value, plan.value);
        Some(Code(program.value.funcs, plan.value))
  }

  /** The code fits the executable's fields. */
  ghost predicate Encodable(code: Code, titles: seq<Title>) {
    && |titles| == |code.funcs| && |Table(FuncItems(code.funcs, titles))| < TWO_32
    && (forall i | 0 <= i < |code.funcs| :: FuncFits(code.funcs[i])) && BlocksFit(code.plan)
  }

  ghost function EnvOf(code: Code, ops: Ops, input: Maybe, data: Maybe): Env { Env(ops, code.funcs, input, data, true) }

  lemma CodeIsValid(code: Code, ops: Ops, input: Maybe, data: Maybe)
    requires CallsDescend(code)
    ensures EnvOf(code, ops, input, data).Valid() && Plain(EnvOf(code, ops, input, data)).Valid()
  {
    hide FuncCallsBelow, BlockCallsBelow;
  }

  /** Code in which remembered calls cannot be told apart from others: planned code that
      does not pass both undefined and the empty string to functions. */
  ghost predicate Unambiguous(code: Code, ops: Ops, input: Maybe, data: Maybe)
    requires CallsDescend(code)
  {
    CodeIsValid(code, ops, input, data);
    var plain := Plain(EnvOf(code, ops, input, data));
    && Transparency.Planned(plain) && BlocksTame(code.funcs, code.plan)
    && !(None in PassedBlanks(plain, code.plan) && Some(Str("")) in PassedBlanks(plain, code.plan))
  }

  /** A policy either does not compile, or its bytes give its plan's result, unless the
      budget runs out, which it does not as long as the cost of the plan is within the limit.
      If the code is unambiguous, that is the plan's result without remembered calls. */
  method Run(p: Policy, titles: seq<Title>, ops: Ops, limit: int, start: int, input: Maybe, data: Maybe)
    returns (r: Option<Res<set<Value>>>, counted: int)
    requires p.Planned() && (Compiled(p).Some? ==> Encodable(Compiled(p).value, titles))
    ensures r.Some? <==> Compiled(p).Some?
    ensures r.Some? ==>
              var code := Compiled(p).value;
              var env := EnvOf(code, ops, input, data);
              && env.Valid() && Plain(env).Valid()
              && (r.value == PlanResult(env, code.plan) || (r.value == Err(LimitExceeded) && counted > limit))
              && (Unambiguous(code, ops, input, data) ==> PlanResult(env, code.plan) == PlanResult(Plain(env), code.plan))
              && Charged(r.value, counted, start, limit, PlanCost(env, code.plan))
              && (start + PlanCost(env, code.plan) <= limit ==> r.value == PlanResult(env, code.plan))
              && (start + PlanCost(env, code.plan) > limit + 32 && PlanCost(env, code.plan) > 0 ==> r.value.Err?)
    ensures r.None? ==> counted == start
  {
    hide At, EncodeBlocks, EvalBlocks, BlocksFit, BlocksTame, FuncsAt, FuncTame, FuncFits, FuncCallsBelow, BlockCallsBelow, Table, FuncItems;
    hide PlanResult, PlanCost, PassedBlanks;
    counted := start;
    var program := Compilers.CompileFuncs(p.builtins, p.available, p.funcs);
    if program.None? {
      return None, start;
    }
    var plan := CodeWriters.CompileBlocks(p.plan, program.value.index);
    if plan.None? {
      return None, start;
    }
    ghost var code := Compiled(p).value;
    CodeIsValid(code, ops, input, data);
    FuncsReadBack(code.funcs, titles);
    WholeStands(plan.value);
    var result;
    result, counted := EvalPlan(ops, Table(FuncItems(program.value.funcs, titles)), plan.value, 0, limit, start, input, data,
                                code.funcs, code.plan);
    r := Some(result);
    if Unambiguous(code, ops, input, data) {
      PlannedToo(EnvOf(code, ops, input, data));
      MemoizationIsTransparent(EnvOf(code, ops, input, data), code.plan);
    }
  }

  lemma PlannedToo(env: Env)
    requires env.Valid() && Transparency.Planned(Plain(env))
    ensures Transparency.Planned(env)
  {
    hide FuncTame;
  }
}
