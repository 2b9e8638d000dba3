/** The virtual machine as it runs: it walks the bytes of the executable, keeps the
    registers of each call in a state object, remembers calls in a stack of layers, and
    counts statements against a budget. It does exactly what evaluation says, whatever the
    code. */
module Machines {
  import opened ByteCodec
  import opened Ir
  import opened Bytecode
  import opened Executables
  import opened Evaluation
  import opened EvaluationSteps

  class Globals {
    const ops: Ops
    const functions: Bytes
    const limit: int
    const start: int
    const input: Maybe
    const data: Maybe
    ghost const funcs: seq<Func<nat>>
    var memoize: seq<map<Key, Maybe>>
    var resultSet: set<Value>
    var evalInstructions: int
    ghost var dispatched: int
    ghost var open: nat
    ghost var bounded: bool

    ghost function PolicyEnv(): Env { Env(ops, funcs, input, data, true) }

    /** The executable holds the program. */
    ghost predicate Program() {
      PolicyEnv().Valid() && FuncsAt(functions, funcs) && forall i | 0 <= i < |funcs| :: FuncFits(funcs[i])
    }

    /** The layer of remembered calls in force. */
    function Top(): Memo
      requires memoize != []
      reads this`memoize
    {
      memoize[|memoize| - 1]
    }

    /** The counter is where it started or within 32 of the limit, and at no dispatch
        was the counter more than 32 behind for each open block. */
    ghost predicate InBudget()
      reads this
    {
      (evalInstructions <= start || evalInstructions <= limit + 32) && bounded
    }

    constructor (ops: Ops, functions: Bytes, limit: int, start: int, input: Maybe, data: Maybe, ghost funcs: seq<Func<nat>>)
      ensures this.ops == ops && this.functions == functions && this.limit == limit && this.input == input
      ensures this.data == data && this.funcs == funcs && this.start == start && evalInstructions == start
      ensures memoize == [map[]] && resultSet == {} && InBudget() && Settled()
    {
      this.ops, this.functions, this.limit, this.start := ops, functions, limit, start;
      this.input, this.data, this.funcs := input, data, funcs;
      memoize, resultSet, evalInstructions := [map[]], {}, start;
      dispatched, open, bounded := start, 0, true;
    }

    /** Layers are pushed and popped in pairs, whatever happens in between. */
    ghost predicate Stacked(lower: seq<Memo>)
      reads this`memoize
    {
      |memoize| == |lower| + 1 && memoize[..|lower|] == lower
    }

    /** What has been dispatched but not counted, at most 32 for each open block. */
    ghost predicate Settled()
      reads this
    {
      dispatched - evalInstructions <= 32 * open
    }

    method Instr(i: int) returns (err: Option<Error>)
      requires 0 <= i <= 32 && InBudget()
      modifies this`evalInstructions
      ensures InBudget()
      ensures err == if old(evalInstructions) > limit then Some(LimitExceeded) else None
      ensures evalInstructions == old(evalInstructions) + if err.None? then i else 0
    {
      if evalInstructions > limit {
        return Some(LimitExceeded);
      }
      evalInstructions := evalInstructions + i;
      return None;
    }

    lemma FunctionFacts(i: nat)
      requires Program() && i < |funcs| && funcs[i].Func?
      ensures var f, at := funcs[i], FuncOffset(functions, i);
              FunctionAt(functions, at, i, f.params, f.ret, f.blocks) && f.ret >= 0 && BlocksFit(f.blocks)
      ensures 8 + 4 * i <= |functions|
    {
      hide EncodeBlocks, BlocksFit, FunctionAt;
      assert FuncAt(functions, FuncOffset(functions, i), funcs[i], i);
    }

    /** Before statement `i` of a block: the budget is checked and the statements since
        the last check are counted every 32nd time. */
    method Dispatch(i: nat, instr: int) returns (instr': int, err: Option<Error>)
      requires InBudget() && instr == (if i == 0 then 0 else (i - 1) % 32 + 1)
      requires open > 0 && dispatched - evalInstructions - instr <= 32 * (open - 1)
      modifies this`evalInstructions, this`dispatched, this`bounded
      ensures InBudget() && (err.Some? ==> err.value == LimitExceeded) && 0 <= instr' <= 32
      ensures err.None? ==> instr' == i % 32 + 1 && Settled()
      ensures err.None? ==> dispatched - evalInstructions - instr' == old(dispatched - evalInstructions) - instr
      ensures err.None? ==> evalInstructions + instr' == old(evalInstructions) + instr + 1
      ensures err.Some? ==> evalInstructions == old(evalInstructions) > limit && instr' == instr
      ensures err.Some? ==> dispatched == old(dispatched)
    {
      instr', err := instr, None;
      if i % 32 == 0 {
        err := Instr(instr);
        if err.Some? {
          return;
        }
        instr' := 0;
      }
      instr' := instr' + 1;
      dispatched := dispatched + 1;
      bounded := bounded && dispatched - evalInstructions <= 32 * open;
    }

    method MemoizePush()
      modifies this`memoize
      ensures memoize == old(memoize) + [map[]]
    {
      memoize := memoize + [map[]];
    }

    method MemoizePop()
      requires memoize != []
      modifies this`memoize
      ensures memoize == old(memoize[..|memoize| - 1])
    {
      memoize := memoize[..|memoize| - 1];
    }

    method MemoizeGet(idx: nat, args: seq<Maybe>) returns (value: Maybe, ok: bool)
      requires memoize != []
      ensures ok <==> KeyOf(idx, args) in Top()
      ensures value == if ok then Top()[KeyOf(idx, args)] else None
    {
      var key := KeyOf(idx, args);
      if key !in Top() {
        return None, false;
      }
      return Top()[key], true;
    }

    method MemoizeInsert(idx: nat, args: seq<Maybe>, value: Maybe)
      requires memoize != []
      modifies this`memoize
      ensures Stacked(old(memoize[..|memoize| - 1])) && Top() == old(Top())[KeyOf(idx, args) := value]
    {
      var n := |memoize| - 1;
      memoize := memoize[n := memoize[n][KeyOf(idx, args) := value]];
    }
  }

  /** What a run of statements starts from. */
  datatype Snap = Snap(results: set<Value>, lower: seq<Memo>, lag: int, open: nat, count: int)

  /** The next part of a run that stops when a part stops. */
  lemma NextPart(o: Outcome, next: Outcome, full: Outcome, t: Trace)
    requires full == After(t, if o.Fail? || o.stop then o else After(o.trace, next))
    ensures o.Fail? ==> full == Fail(o.error, t.Plus(o.trace))
    ensures o.Done? && o.stop ==> full == Done(true, o.index, o.frame, o.memo, t.Plus(o.trace))
    ensures o.Done? && !o.stop ==> full == After(t.Plus(o.trace), next)
  {
    PlusPlus(t, o.trace, next.trace);
  }

  /** The next part of a run that goes on whether or not a part stops. */
  lemma NextAnyway(o: Outcome, next: Outcome, full: Outcome, t: Trace)
    requires full == After(t, if o.Fail? then o else After(o.trace, next))
    ensures o.Fail? ==> full == Fail(o.error, t.Plus(o.trace))
    ensures o.Done? ==> full == After(t.Plus(o.trace), next)
  {
    PlusPlus(t, o.trace, next.trace);
  }

  lemma AfterNothing(o: Outcome)
    ensures After(NOTHING, o) == o
  {
    PlusNothing(o.trace);
  }

  lemma NothingLeft(t: Trace, fr: Frame, memo: Memo)
    ensures After(t, Through(fr, memo)) == Done(false, 0, fr, memo, t)
  {
    PlusNothing(t);
  }

  lemma MoreResults(results: set<Value>, t: Trace, u: Trace)
    ensures results + t.adds + u.adds == results + t.Plus(u).adds
    ensures results + NOTHING.adds == results
  {
  }

  /** The next statement of a sequence, after earlier ones have left `t`. */
  lemma NextStmt(env: Env, n: nat, ss: seq<Stmt<nat>>, k: nat, fr: Frame, memo: Memo, full: Outcome, t: Trace)
    requires env.Valid() && n <= |env.funcs| && k < |ss| && forall i | 0 <= i < |ss| :: CallsBelow(ss[i], n)
    requires full == After(t, EvalStmts(env, n, ss, k, fr, memo))
    ensures var o := Eval(env, n, ss[k], fr, memo);
            && (o.Fail? ==> full == Fail(o.error, t.Plus(o.trace)))
            && (o.Done? && o.stop ==> full == Done(true, o.index, o.frame, o.memo, t.Plus(o.trace)))
            && (o.Done? && !o.stop ==> full == After(t.Plus(o.trace), EvalStmts(env, n, ss, k + 1, o.frame, o.memo)))
  {
    hide Eval, EvalStmts, CallsBelow, After;
    EvalStmtsStep(env, n, ss, k, fr, memo);
    var o := Eval(env, n, ss[k], fr, memo);
    NextPart(o, if o.Done? then EvalStmts(env, n, ss, k + 1, o.frame, o.memo) else o, full, t);
  }

  /** What has been dispatched so far is part of the whole. */
  lemma NextSteps(env: Env, n: nat, ss: seq<Stmt<nat>>, k: nat, fr: Frame, memo: Memo, full: Outcome, t: Trace)
    requires env.Valid() && n <= |env.funcs| && k < |ss| && forall i | 0 <= i < |ss| :: CallsBelow(ss[i], n)
    requires full == After(t, EvalStmts(env, n, ss, k, fr, memo))
    ensures full.trace.steps >= t.steps + Eval(env, n, ss[k], fr, memo).trace.steps
  {
    hide Eval, EvalStmts, CallsBelow;
    EvalStmtsStep(env, n, ss, k, fr, memo);
  }

  lemma LastStmt(env: Env, n: nat, ss: seq<Stmt<nat>>, fr: Frame, memo: Memo, full: Outcome, t: Trace)
    requires env.Valid() && n <= |env.funcs| && forall i | 0 <= i < |ss| :: CallsBelow(ss[i], n)
    requires full == After(t, EvalStmts(env, n, ss, |ss|, fr, memo))
    ensures full == Done(false, 0, fr, memo, t)
  {
    hide Eval, CallsBelow;
    NothingLeft(t, fr, memo);
  }

  /** The type byte tells the statements with blocks and the calls from the others. */
  lemma KindOf(s: Stmt<nat>)
    ensures TypeOf(s) % 64 == TypeOf(s)
    ensures (TypeOf(s) == BLOCK_STMT <==> s.BlockStmt?) && (TypeOf(s) == NOT <==> s.Not?)
    ensures (TypeOf(s) == SCAN <==> s.Scan?) && (TypeOf(s) == WITH <==> s.With?) && (TypeOf(s) == CALL <==> s.Call?)
  {
  }

  lemma BlocksFitParts(c: Bytes, at: int, bs: seq<Block<nat>>)
    requires At(c, at, EncodeBlocks(bs)) && |EncodeBlocks(bs)| < TWO_32
    ensures 0 <= at && at + 8 <= |c| && U32(c, at + 4) == |bs|
    ensures forall i | 0 <= i < |bs| :: BlockAt(c, at, i).Some? && At(c, BlockAt(c, at, i).value, EncodeBlock(bs[i]))
  {
    hide At, EncodeBlocks, EncodeBlock, BlockAt, BlockBytes;
    BlocksParts(c, at, bs);
  }

  class State {
    const globals: Globals
    var frame: Frame

    /** newState. */
    constructor (globals: Globals)
      ensures this.globals == globals && frame == globals.PolicyEnv().Fresh()
    {
      this.globals := globals;
      frame := Frame(map[], {DATA}, -1).Set(INPUT, globals.input).Set(DATA, globals.data);
    }

    ghost function Env(): Env { globals.PolicyEnv() }

    ghost predicate Ready()
      reads this, globals
    {
      globals.Program() && globals.InBudget() && globals.memoize != []
    }

    /** What has been dispatched but not counted. */
    ghost function Lag(): int
      reads globals
    {
      globals.dispatched - globals.evalInstructions
    }

    ghost function Now(): Snap
      requires globals.memoize != []
      reads globals
    {
      Snap(globals.resultSet, globals.memoize[..|globals.memoize| - 1], Lag(), globals.open, globals.evalInstructions)
    }

    ghost function Memo(): Memo
      requires globals.memoize != []
      reads globals
    {
      globals.Top()
    }

    /** What holds on every exit. */
    ghost predicate Kept(before: Snap)
      reads globals
    {
      globals.InBudget() && globals.open == before.open && globals.Stacked(before.lower)
    }

    /** The budget has run out. */
    ghost predicate Over()
      reads globals
    {
      globals.evalInstructions > globals.limit
    }

    /** No more than `total` has been counted, and less only if the budget has run out. */
    ghost predicate Spent(total: int)
      reads globals
    {
      globals.evalInstructions <= total && (globals.evalInstructions == total || Over())
    }

    /** An error is the one that evaluation ends with, or the budget has run out. */
    ghost predicate Excused(o: Outcome, e: Error)
      reads globals
    {
      (e == LimitExceeded && Over()) || (o.Fail? && o.error == e)
    }

    /** What running something to the end has done: it ended as evaluation says, unless
        the budget ran out; every statement dispatched has been counted. */
    ghost predicate Ran(o: Outcome, err: Option<Error>, stop: bool, index: int, before: Snap)
      reads this, globals
    {
      && Kept(before)
      && (err.Some? ==> Excused(o, err.value) && Spent(before.count + o.trace.steps))
      && (err.None? ==>
            && o.Done? && stop == o.stop && index == o.index && frame == o.frame && Memo() == o.memo
            && Now() == before.(results := before.results + o.trace.adds, count := before.count + o.trace.steps))
    }

    /** A run in progress, which has left `t` so far and of which `rest` remains. */
    ghost predicate Underway(rest: Outcome, full: Outcome, t: Trace, err: Option<Error>, stop: bool, index: int, before: Snap)
      reads this, globals
    {
      && Kept(before)
      && (err.Some? ==> Excused(full, err.value) && Spent(before.count + full.trace.steps))
      && (err.None? ==> Now() == before.(results := before.results + t.adds, count := before.count + t.steps))
      && (err.None? && stop ==> full == Done(true, index, frame, Memo(), t))
      && (err.None? && !stop ==> full == After(t, rest))
    }

    /** Of `d` statements to be dispatched in a sequence, `k` have been. */
    ghost predicate Ticking(n: nat, ss: seq<Stmt<nat>>, k: nat, d: nat, err: Option<Error>, stop: bool)
      reads this, globals
      requires Env().Valid() && n <= |globals.funcs| && k <= |ss| && forall i | 0 <= i < |ss| :: CallsBelow(ss[i], n)
    {
      && k <= d && (d == k || err.None? || Over())
      && (err.None? ==> globals.memoize != [] && d == k + if stop then 0 else Dispatched(Env(), n, ss, k, frame, Memo()))
    }

    /** A sequence of statements in progress. */
    ghost predicate Running(n: nat, ss: seq<Stmt<nat>>, k: nat, full: Outcome, t: Trace, err: Option<Error>, stop: bool,
                            index: int, before: Snap)
      reads this, globals
      requires Env().Valid() && n <= |globals.funcs| && k <= |ss| && forall i | 0 <= i < |ss| :: CallsBelow(ss[i], n)
    {
      globals.memoize != [] && Underway(EvalStmts(Env(), n, ss, k, frame, Memo()), full, t, err, stop, index, before)
    }

    /** What a function's run has done, in the state object of the call. */
    ghost predicate CallRan(r: Result, err: Option<Error>, before: Snap)
      reads this, globals
    {
      && Kept(before)
      && (err.Some? ==>
            && ((err.value == LimitExceeded && Over()) || (r.Failed? && r.error == err.value))
            && Spent(before.count + r.trace.steps))
      && (err.None? ==>
            && r.Returned? && (frame.ret >= 0 <==> r.has) && (r.has ==> frame.Get(frame.ret) == r.value) && Memo() == r.memo
            && Now() == before.(results := before.results + r.trace.adds, count := before.count + r.trace.steps))
    }

    // ---- Runs with several parts ----

    lemma Begins(full: Outcome)
      requires globals.memoize != [] && globals.InBudget()
      ensures Underway(full, full, NOTHING, None, false, 0, Now())
    {
      AfterNothing(full);
      MoreResults(globals.resultSet, NOTHING, NOTHING);
    }

    /** What a part has left. */
    lemma PartRan(o: Outcome, err: Option<Error>, stop: bool, index: int, mid: Snap)
      requires Ran(o, err, stop, index, mid)
      ensures globals.memoize != []
      ensures err.None? ==> o.Done? && stop == o.stop && index == o.index && frame == o.frame && Memo() == o.memo
    {
    }

    /** A part has run, and the run stops or goes on with `rest`. */
    lemma GoesOn(o: Outcome, next: Outcome, rest: Outcome, full: Outcome, t: Trace, err: Option<Error>, stop: bool, index: int,
                 mid: Snap, before: Snap)
      requires Ran(o, err, stop, index, mid) && mid == before.(results := before.results + t.adds, count := before.count + t.steps)
      requires full == After(t, if o.Fail? || o.stop then o else After(o.trace, next))
      requires err.None? && !stop ==> rest == next
      ensures Underway(rest, full, if err.None? then t.Plus(o.trace) else t, err, stop, index, before)
    {
      NextPart(o, next, full, t);
      MoreResults(before.results, t, o.trace);
    }

    /** ... or it goes on even if the part stops. */
    lemma GoesOnAnyway(o: Outcome, next: Outcome, rest: Outcome, full: Outcome, t: Trace, err: Option<Error>, stop: bool, index: int,
                       mid: Snap, before: Snap)
      requires Ran(o, err, stop, index, mid) && mid == before.(results := before.results + t.adds, count := before.count + t.steps)
      requires full == After(t, if o.Fail? then o else After(o.trace, next))
      requires err.None? ==> rest == next
      ensures Underway(rest, full, if err.None? then t.Plus(o.trace) else t, err, false, 0, before)
    {
      NextAnyway(o, next, full, t);
      MoreResults(before.results, t, o.trace);
    }

    /** Where a run in progress stands. */
    lemma Standing(rest: Outcome, full: Outcome, t: Trace, index: int, before: Snap)
      requires Underway(rest, full, t, None, false, index, before)
      ensures globals.memoize != [] && globals.InBudget() && full == After(t, rest)
      ensures Now() == before.(results := before.results + t.adds, count := before.count + t.steps)
    {
    }

    lemma Ends(rest: Outcome, full: Outcome, t: Trace, err: Option<Error>, stop: bool, index: int, before: Snap)
      requires globals.memoize != [] && Underway(rest, full, t, err, stop, index, before)
      requires err.None? && !stop ==> rest == Through(frame, Memo())
      ensures Ran(full, err, stop, if stop then index else 0, before)
    {
      if err.None? && !stop {
        NothingLeft(t, frame, Memo());
      }
    }

    /** The next statement of a sequence. */
    method ExecuteNext(c: Bytes, at: int, ghost n: nat, ghost ss: seq<Stmt<nat>>, ghost k: nat, ghost full: Outcome,
                       ghost t: Trace, ghost before: Snap, ghost d: nat)
      returns (stop: bool, index: int, size: int, err: Option<Error>, ghost t': Trace)
      requires globals.Program() && n <= |globals.funcs| && k < |ss| && forall i | 0 <= i < |ss| :: CallsBelow(ss[i], n)
      requires At(c, at, Encode(ss[k])) && Fits(ss[k])
      requires Running(n, ss, k, full, t, None, false, 0, before) && globals.Settled()
      requires Ticking(n, ss, k, d, None, false)
      modifies this, globals
      ensures size == |Encode(ss[k])| && Running(n, ss, k + 1, full, t', err, stop, index, before)
      ensures Ticking(n, ss, k + 1, d, err, stop)
      decreases 2 * n, ss, 0, |ss| - k
    {
      hide Eval, EvalStmts, Dispatched, CallsBelow, Fits, At, Encode, FuncsAt, FuncFits, FuncCallsBelow, After;
      NextStmt(Env(), n, ss, k, frame, Memo(), full, t);
      NextSteps(Env(), n, ss, k, frame, Memo(), full, t);
      DispatchedStep(Env(), n, ss, k, frame, Memo());
      ghost var o := Eval(Env(), n, ss[k], frame, Memo());
      stop, index, size, err := Execute(c, at, n, ss[k]);
      t' := if o.Done? then t.Plus(o.trace) else t;
      MoreResults(before.results, t, o.trace);
    }

    method Execute(c: Bytes, at: int, ghost n: nat, ghost s: Stmt<nat>)
      returns (stop: bool, index: int, size: int, err: Option<Error>)
      requires Ready() && globals.Settled() && n <= |globals.funcs| && CallsBelow(s, n)
      requires At(c, at, Encode(s)) && Fits(s)
      modifies this, globals
      ensures size == |Encode(s)|
      ensures Ran(Eval(Env(), n, s, old(frame), old(Memo())), err, stop, index, old(Now()))
      decreases 2 * n, s, 1, 0
    {
      hide Eval, EvalStmts, CallsBelow, Fits, At, Encode, Decode, Ran, Step;
      hide EvalBlockStmt, EvalScan, EvalFunc, CallStep, Nested, TypeOf, Fields, FuncsAt, FuncFits, FuncCallsBelow;
      FitsParts(s);
      EncodedParts(c, at, s);
      NestedIs(s);
      CallsBelowParts(s, n);
      KindOf(s);
      var t := High(U32(c, at)) % 64;
      size := Low(U32(c, at));
      if t == BLOCK_STMT {
        stop, index, err := ExecuteBlockStmt(c, at, n, s);
      } else if t == NOT {
        stop, index, err := ExecuteNot(c, at, n, s);
      } else if t == SCAN {
        stop, index, err := ExecuteScan(c, at, n, s);
      } else if t == WITH {
        stop, index, err := ExecuteWith(c, at, n, s);
      } else if t == CALL {
        stop, index, err := ExecuteCall(c, at, n, s);
      } else {
        stop, index, err := ExecuteFlat(c, at, n, s);
      }
    }

    /** The statements without blocks and calls. */
    method ExecuteFlat(c: Bytes, at: int, ghost n: nat, ghost s: Stmt<nat>)
      returns (stop: bool, index: int, err: Option<Error>)
      requires Ready() && n <= |globals.funcs| && CallsBelow(s, n) && At(c, at, Encode(s)) && Fits(s)
      requires !s.BlockStmt? && !s.Not? && !s.Scan? && !s.With? && !s.Call?
      modifies this, globals`resultSet
      ensures Ran(Eval(Env(), n, s, old(frame), old(Memo())), err, stop, index, old(Now()))
    {
      hide Eval, CallsBelow, Fits, At, Encode, Decode, Step, FuncsAt, FuncFits, FuncCallsBelow;
      EvalParts(Env(), n, s, frame, Memo());
      DecodeCorrect(c, at, s);
      var e := Step(globals.ops, Decode(c, at).value, frame);
      match e {
        case Bad(error) => return false, 0, Some(error);
        case Good(stop', index', frame', adds) =>
          globals.resultSet := globals.resultSet + adds;
          frame := frame';
          return stop', index', None;
      }
    }

    method ExecuteCall(c: Bytes, at: int, ghost n: nat, ghost s: Stmt<nat>)
      returns (stop: bool, index: int, err: Option<Error>)
      requires Ready() && n <= |globals.funcs| && CallsBelow(s, n) && At(c, at, Encode(s)) && Fits(s)
      requires s.Call? && globals.Settled()
      modifies this, globals
      ensures Ran(Eval(Env(), n, s, old(frame), old(Memo())), err, stop, index, old(Now()))
      decreases 2 * n, s, 0, 0
    {
      hide Eval, CallsBelow, Fits, At, Encode, Decode, EvalFunc, FuncFits, FuncCallsBelow;
      EvalParts(Env(), n, s, frame, Memo());
      DecodeCorrect(c, at, s);
      var call := Decode(c, at).value;
      var args := frame.Vals(globals.ops, call.args);
      var f := FuncOffset(globals.functions, call.func);
      stop, index, err := false, 0, None;
      if U32(globals.functions, f + 4) == TYPE_FUNCTION {
        var inner := new State(globals);
        err := inner.CallFunction(f, args, s.func);
        if err.Some? {
          return;
        }
        stop := inner.frame.ret < 0;
        if !stop {
          frame := frame.Set(call.result, inner.frame.Get(inner.frame.ret));
        }
      } else {
        BuiltinCall(Env(), s.func, args, Memo());
        MoreResults(globals.resultSet, NOTHING, NOTHING);
        var r := globals.ops.builtin(call.func, args);
        match r {
          case Err(e) => err := Some(e);
          case Ok(v) =>
            stop := v.None?;
            if v.Some? {
              frame := frame.Set(call.result, v);
            }
        }
      }
    }

    /** The statements of a block in turn, as `not` and `with` run them. */
    method ExecuteStatements(c: Bytes, at: int, ghost n: nat, ghost b: Block<nat>)
      returns (stop: bool, index: int, err: Option<Error>)
      requires Ready() && globals.Settled() && n <= |globals.funcs| && BlockCallsBelow(b, n)
      requires At(c, at, EncodeBlock(b)) && BlockFits(b)
      modifies this, globals
      ensures Ran(EvalStmts(Env(), n, b.stmts, 0, old(frame), old(Memo())), err, stop, index, old(Now()))
      decreases 2 * n, b, 0, 0
    {
      hide At, EncodeBlock, StmtBytes, Encode, Fits, CallsBelow, EvalStmts, Dispatched, FuncsAt, FuncFits, FuncCallsBelow, After;
      hide Ran, Underway, Ticking;
      BlockFitsParts(b);
      BlockParts(c, at, b);
      NoStmtBytes(b.stmts);
      ghost var full, t, before := EvalStmts(Env(), n, b.stmts, 0, frame, Memo()), NOTHING, Now();
      ghost var d := Dispatched(Env(), n, b.stmts, 0, frame, Memo());
      Begins(full);
      TickingBegins(n, b.stmts, d);
      stop, index, err := false, 0, None;
      var i, count, statement := 0, U32(c, at + 4), at + 8;
      while !stop && err.None? && i < count
        invariant 0 <= i <= count == |b.stmts| && statement == at + 8 + |StmtBytes(b.stmts, i)|
        invariant Running(n, b.stmts, i, full, t, err, stop, index, before) && Ticking(n, b.stmts, i, d, err, stop)
      {
        StmtStands(c, at + 8, b.stmts, |b.stmts|, i);
        RunStands(n, b.stmts, i, full, t, index, before);
        var size;
        stop, index, size, err, t := ExecuteNext(c, statement, n, b.stmts, i, full, t, before, d);
        statement := statement + size;
        i := i + 1;
      }
      if err.None? && !stop {
        EvalStmtsStep(Env(), n, b.stmts, i, frame, Memo());
      }
      Ends(EvalStmts(Env(), n, b.stmts, i, frame, Memo()), full, t, err, stop, index, before);
      index := if stop then index else 0;
    }

    lemma TickingBegins(n: nat, ss: seq<Stmt<nat>>, d: nat)
      requires Ready() && n <= |globals.funcs| && forall i | 0 <= i < |ss| :: CallsBelow(ss[i], n)
      requires d == Dispatched(Env(), n, ss, 0, frame, Memo())
      ensures Ticking(n, ss, 0, d, None, false)
    {
      hide CallsBelow, Dispatched, FuncsAt, FuncFits, FuncCallsBelow;
    }

    lemma RunStands(n: nat, ss: seq<Stmt<nat>>, k: nat, full: Outcome, t: Trace, index: int, before: Snap)
      requires Env().Valid() && n <= |globals.funcs| && k <= |ss| && forall i | 0 <= i < |ss| :: CallsBelow(ss[i], n)
      requires Running(n, ss, k, full, t, None, false, index, before) && before.lag <= 32 * before.open
      ensures globals.Settled() && Running(n, ss, k, full, t, None, false, 0, before)
    {
      hide CallsBelow, EvalStmts, After, FuncCallsBelow;
    }

    /** Execution continues behind `not` exactly when the block inside stops. */
    method ExecuteNot(c: Bytes, at: int, ghost n: nat, ghost s: Stmt<nat>)
      returns (stop: bool, index: int, err: Option<Error>)
      requires Ready() && n <= |globals.funcs| && CallsBelow(s, n) && At(c, at, Encode(s)) && Fits(s)
      requires s.Not? && globals.Settled()
      modifies this, globals
      ensures Ran(Eval(Env(), n, s, old(frame), old(Memo())), err, stop, index, old(Now()))
      decreases 2 * n, s, 0, 0
    {
      hide At, EncodeBlock, Encode, Fits, CallsBelow, EvalStmts, Eval, BlockFits, BlockCallsBelow, FuncsAt, FuncFits, FuncCallsBelow;
      FitsParts(s);
      EncodedParts(c, at, s);
      NestedIs(s);
      CallsBelowParts(s, n);
      EvalParts(Env(), n, s, frame, Memo());
      stop, index, err := ExecuteStatements(c, at + 4, n, s.block);
      if err.Some? {
        return;
      }
      if stop {
        if index == 0 {
          return false, 0, None;
        }
        return true, index - 1, None;
      }
      return true, 0, None;
    }

    /** A block's loop in progress: `instr` of its statements have not been counted yet. */
    ghost predicate Counting(n: nat, ss: seq<Stmt<nat>>, k: nat, instr: int, full: Outcome, t: Trace, d: nat, stop: bool, index: int,
                             before: Snap)
      reads this, globals
      requires Env().Valid() && n <= |globals.funcs| && k <= |ss| && forall i | 0 <= i < |ss| :: CallsBelow(ss[i], n)
    {
      && Running(n, ss, k, full, t, None, stop, index, before.(lag := before.lag + instr, count := before.count + k - instr))
      && Ticking(n, ss, k, d, None, stop) && instr == if k == 0 then 0 else (k - 1) % 32 + 1
    }

    /** The loop has ended in an error. */
    ghost predicate Halted(instr: int, full: Outcome, d: nat, e: Error, before: Snap)
      reads globals
    {
      && Kept(before) && Excused(full, e) && 0 <= instr <= 32
      && globals.evalInstructions + instr <= before.count + d + full.trace.steps
      && (globals.evalInstructions + instr == before.count + d + full.trace.steps || Over())
    }

    lemma LaterCount(t: Trace, full: Outcome, rest: Outcome)
      requires full == After(t, rest)
      ensures t.steps <= full.trace.steps
    {
    }

    /** One round of a block's loop: the budget is checked every 32nd time. */
    method ExecuteRound(c: Bytes, at: int, instr: int, ghost n: nat, ghost ss: seq<Stmt<nat>>, i: nat, ghost full: Outcome,
                        ghost t: Trace, ghost before: Snap, ghost d: nat)
      returns (instr': int, stop: bool, index: int, size: int, err: Option<Error>, ghost t': Trace)
      requires globals.Program() && n <= |globals.funcs| && i < |ss| && forall k | 0 <= k < |ss| :: CallsBelow(ss[k], n)
      requires At(c, at, Encode(ss[i])) && Fits(ss[i])
      requires Counting(n, ss, i, instr, full, t, d, false, 0, before) && before.open > 0 && before.lag <= 32 * (before.open - 1)
      modifies this, globals
      ensures err.Some? ==> Halted(instr', full, d, err.value, before)
      ensures err.None? ==> size == |Encode(ss[i])| && Counting(n, ss, i + 1, instr', full, t', d, stop, if stop then index else 0, before)
      decreases 2 * n, ss, 1, 0
    {
      hide Eval, EvalStmts, Dispatched, CallsBelow, Fits, At, Encode, FuncsAt, FuncFits, FuncCallsBelow, After;
      LaterCount(t, full, EvalStmts(Env(), n, ss, i, frame, Memo()));
      stop, index, size, t' := false, 0, 0, t;
      instr', err := globals.Dispatch(i, instr);
      if err.None? {
        stop, index, size, err, t' := ExecuteNext(c, at, n, ss, i, full, t,
                                                  before.(lag := before.lag + instr', count := before.count + i + 1 - instr'), d);
      }
    }

    /** A block's own loop, which counts the statements it dispatches. */
    method ExecuteCounted(c: Bytes, at: int, ghost n: nat, ghost b: Block<nat>)
      returns (stop: bool, index: int, err: Option<Error>)
      requires Ready() && n <= |globals.funcs| && BlockCallsBelow(b, n)
      requires globals.open > 0 && globals.dispatched - globals.evalInstructions <= 32 * (globals.open - 1)
      requires At(c, at, EncodeBlock(b)) && BlockFits(b)
      modifies this, globals
      ensures var d := Dispatched(Env(), n, b.stmts, 0, old(frame), old(Memo()));
              Ran(After(Ticks(d), EvalStmts(Env(), n, b.stmts, 0, old(frame), old(Memo()))), err, stop, index, old(Now()))
      decreases 2 * n, b, 0, 0
    {
      hide At, EncodeBlock, StmtBytes, Encode, Fits, CallsBelow, EvalStmts, Dispatched, FuncsAt, FuncFits, FuncCallsBelow, After;
      hide Counting, Counted, Halted, Ran;
      BlockFitsParts(b);
      BlockParts(c, at, b);
      NoStmtBytes(b.stmts);
      ghost var full, t, before := EvalStmts(Env(), n, b.stmts, 0, frame, Memo()), NOTHING, Now();
      ghost var d := Dispatched(Env(), n, b.stmts, 0, frame, Memo());
      CountingBegins(n, b.stmts, full, d);
      stop, index, err := false, 0, None;
      var i, count, statement, instr := 0, U32(c, at + 4), at + 8, 0;
      while !stop && err.None? && i < count
        invariant 0 <= i <= count == |b.stmts| && statement == at + 8 + |StmtBytes(b.stmts, i)|
        invariant err.None? ==> Counting(n, b.stmts, i, instr, full, t, d, stop, if stop then index else 0, before)
        invariant err.Some? ==> Halted(instr, full, d, err.value, before)
      {
        StmtStands(c, at + 8, b.stmts, |b.stmts|, i);
        var size;
        instr, stop, index, size, err, t := ExecuteRound(c, statement, instr, n, b.stmts, i, full, t, before, d);
        if err.None? {
          statement := statement + size;
          i := i + 1;
        }
      }
      if err.None? {
        index := if stop then index else 0;
        LastCounted(n, b.stmts, i, instr, full, t, d, stop, index, before);
      }
      err := CountRest(instr, stop, index, err, full, t, d, before);
    }

    /** The statements since the last check are counted, whatever the error. */
    method CountRest(instr: int, stop: bool, index: int, err: Option<Error>, ghost full: Outcome, ghost t: Trace, ghost d: nat,
                     ghost before: Snap)
      returns (err': Option<Error>)
      requires err.Some? ==> Halted(instr, full, d, err.value, before)
      requires err.None? ==> Counted(instr, full, t, d, stop, index, before)
      modifies globals
      ensures Ran(After(Ticks(d), full), err', stop, index, before)
    {
      err' := globals.Instr(instr);
      if err.Some? {
        err' := err;
      }
      PlusSteps(d, full);
    }

    lemma PlusSteps(d: nat, o: Outcome)
      ensures After(Ticks(d), o) == o.(trace := Trace(o.trace.adds, o.trace.blanks, d + o.trace.steps))
    {
      assert {} + o.trace.adds == o.trace.adds && {} + o.trace.blanks == o.trace.blanks;
    }

    /** The loop has ended without an error, and the rest has not been counted yet. */
    ghost predicate Counted(instr: int, full: Outcome, t: Trace, d: nat, stop: bool, index: int, before: Snap)
      reads this, globals
    {
      && Kept(before) && 0 <= instr <= 32 && full == Done(stop, index, frame, Memo(), t)
      && Now() == before.(results := before.results + t.adds, lag := before.lag + instr, count := before.count + t.steps + d - instr)
    }

    lemma CountingBegins(n: nat, ss: seq<Stmt<nat>>, full: Outcome, d: nat)
      requires Ready() && n <= |globals.funcs| && forall i | 0 <= i < |ss| :: CallsBelow(ss[i], n)
      requires full == EvalStmts(Env(), n, ss, 0, frame, Memo()) && d == Dispatched(Env(), n, ss, 0, frame, Memo())
      ensures Counting(n, ss, 0, 0, full, NOTHING, d, false, 0, Now())
    {
      hide CallsBelow, EvalStmts, Dispatched, After, FuncsAt, FuncFits, FuncCallsBelow;
      AfterNothing(full);
      MoreResults(globals.resultSet, NOTHING, NOTHING);
    }

    /** The loop has run through, or a statement has stopped. */
    lemma LastCounted(n: nat, ss: seq<Stmt<nat>>, k: nat, instr: int, full: Outcome, t: Trace, d: nat, stop: bool, index: int,
                      before: Snap)
      requires globals.Program() && n <= |globals.funcs| && forall i | 0 <= i < |ss| :: CallsBelow(ss[i], n)
      requires k <= |ss| && (stop || k == |ss|) && Counting(n, ss, k, instr, full, t, d, stop, index, before)
      ensures Counted(instr, full, t, d, stop, if stop then index else 0, before)
    {
      hide CallsBelow, EvalStmts, Dispatched, After, FuncsAt, FuncFits, FuncCallsBelow;
      if !stop {
        LastStmt(Env(), n, ss, frame, Memo(), full, t);
        DispatchedStep(Env(), n, ss, |ss|, frame, Memo());
      }
    }

    method ExecuteBlock(c: Bytes, at: int, ghost n: nat, ghost b: Block<nat>)
      returns (stop: bool, index: int, err: Option<Error>)
      requires Ready() && globals.Settled() && n <= |globals.funcs| && BlockCallsBelow(b, n)
      requires At(c, at, EncodeBlock(b)) && BlockFits(b)
      modifies this, globals
      ensures Ran(EvalBlock(Env(), n, b, old(frame), old(Memo())), err, stop, index, old(Now()))
      decreases 2 * n, b, 0, 1
    {
      hide At, EncodeBlock, EvalStmts, Dispatched, After, BlockFits, FuncsAt, FuncFits, FuncCallsBelow;
      globals.open := globals.open + 1;
      stop, index, err := ExecuteCounted(c, at, n, b);
      globals.open := globals.open - 1;
      if err.Some? {
        return false, 0, err;
      }
      if stop && index != 0 {
        return true, index - 1, None;
      }
      return false, 0, None;
    }

    method ExecuteScan(c: Bytes, at: int, ghost n: nat, ghost s: Stmt<nat>)
      returns (stop: bool, index: int, err: Option<Error>)
      requires Ready() && n <= |globals.funcs| && CallsBelow(s, n) && At(c, at, Encode(s)) && Fits(s)
      requires s.Scan? && globals.Settled()
      modifies this, globals
      ensures Ran(Eval(Env(), n, s, old(frame), old(Memo())), err, stop, index, old(Now()))
      decreases 2 * n, s, 0, 0
    {
      hide At, EncodeBlock, Encode, Fits, CallsBelow, EvalScan, Eval, EvalBlock, BlockFits;
      hide BlockCallsBelow, UWordsAt, FuncsAt, FuncFits, FuncCallsBelow;
      FitsParts(s);
      EncodedParts(c, at, s);
      NestedIs(s);
      CallsBelowParts(s, n);
      EvalScanParts(Env(), n, s, frame, Memo());
      ScanFields(c, at, s);
      var fields := UWordsAt(c, at + 4, 3).value;
      var r := globals.ops.iter(frame.Get(fields[0]));
      if r.Err? {
        return false, 0, Some(r.error);
      }
      stop, index, err := ExecuteElements(c, at + 16, fields[1], fields[2], r.v, n, s.block);
      if err.Some? {
        return;
      }
      if stop && index != 0 {
        return true, index - 1, None;
      }
      return false, 0, None;
    }

    /** The block of a scan, once for each element. */
    method ExecuteElements(c: Bytes, at: int, skey: int, svalue: int, elems: seq<(Value, Value)>, ghost n: nat, ghost b: Block<nat>)
      returns (stop: bool, index: int, err: Option<Error>)
      requires Ready() && globals.Settled() && n <= |globals.funcs| && BlockCallsBelow(b, n)
      requires At(c, at, EncodeBlock(b)) && BlockFits(b)
      modifies this, globals
      ensures Ran(EvalScan(Env(), n, skey, svalue, b, elems, 0, old(frame), old(Memo())), err, stop, index, old(Now()))
      decreases 2 * n, b, 1
    {
      hide At, EncodeBlock, EvalScan, EvalBlock, BlockFits, BlockCallsBelow, ScanFrame, FuncsAt, FuncFits, FuncCallsBelow, After;
      hide Ran, Underway;
      ghost var full, t, before := EvalScan(Env(), n, skey, svalue, b, elems, 0, frame, Memo()), NOTHING, Now();
      Begins(full);
      stop, index, err := false, 0, None;
      var i := 0;
      while !stop && err.None? && i < |elems|
        invariant 0 <= i <= |elems| && globals.memoize != []
        invariant Underway(EvalScan(Env(), n, skey, svalue, b, elems, i, frame, Memo()), full, t, err, stop, index, before)
      {
        Standing(EvalScan(Env(), n, skey, svalue, b, elems, i, frame, Memo()), full, t, index, before);
        EvalScanStep(Env(), n, skey, svalue, b, elems, i, frame, Memo());
        frame := ScanFrame(frame, skey, svalue, elems[i]);
        ghost var o, mid := EvalBlock(Env(), n, b, frame, Memo()), Now();
        ghost var next := if o.Done? then EvalScan(Env(), n, skey, svalue, b, elems, i + 1, o.frame, o.memo) else o;
        stop, index, err := ExecuteBlock(c, at, n, b);
        i := i + 1;
        PartRan(o, err, stop, index, mid);
        GoesOn(o, next, EvalScan(Env(), n, skey, svalue, b, elems, i, frame, Memo()), full, t, err, stop, index, mid, before);
        t := if err.None? then t.Plus(o.trace) else t;
      }
      if err.None? && !stop {
        EvalScanStep(Env(), n, skey, svalue, b, elems, i, frame, Memo());
      }
      Ends(EvalScan(Env(), n, skey, svalue, b, elems, i, frame, Memo()), full, t, err, stop, index, before);
      index := if stop then index else 0;
    }

    method ExecuteBlockStmt(c: Bytes, at: int, ghost n: nat, ghost s: Stmt<nat>)
      returns (stop: bool, index: int, err: Option<Error>)
      requires Ready() && n <= |globals.funcs| && CallsBelow(s, n) && At(c, at, Encode(s)) && Fits(s)
      requires s.BlockStmt? && globals.Settled()
      modifies this, globals
      ensures Ran(Eval(Env(), n, s, old(frame), old(Memo())), err, stop, index, old(Now()))
      decreases 2 * n, s, 0, 0
    {
      hide At, EncodeBlock, EncodeBlocks, Encode, Fits, CallsBelow, EvalBlockStmt, Eval, EvalBlock;
      hide BlockCallsBelow, BlockFits, BlockAt, FuncsAt, FuncFits, FuncCallsBelow, After;
      hide Ran, Underway;
      FitsParts(s);
      EncodedParts(c, at, s);
      NestedIs(s);
      CallsBelowParts(s, n);
      EvalParts(Env(), n, s, frame, Memo());
      BlocksFitParts(c, at + 4, s.blocks);
      ghost var full, t, before := EvalBlockStmt(Env(), n, s.blocks, 0, frame, Memo()), NOTHING, Now();
      Begins(full);
      stop, index, err := false, 0, None;
      var i, count := 0, U32(c, at + 8);
      while err.None? && !stop && i < count
        invariant 0 <= i <= count == |s.blocks| && globals.memoize != []
        invariant Underway(EvalBlockStmt(Env(), n, s.blocks, i, frame, Memo()), full, t, err, stop, index, before)
      {
        Standing(EvalBlockStmt(Env(), n, s.blocks, i, frame, Memo()), full, t, index, before);
        EvalBlockStmtStep(Env(), n, s.blocks, i, frame, Memo());
        ghost var o, mid := EvalBlock(Env(), n, s.blocks[i], frame, Memo()), Now();
        ghost var next := if o.Done? then EvalBlockStmt(Env(), n, s.blocks, i + 1, o.frame, o.memo) else o;
        stop, index, err := ExecuteBlock(c, BlockAt(c, at + 4, i).value, n, s.blocks[i]);
        i := i + 1;
        PartRan(o, err, stop, index, mid);
        GoesOn(o, next, EvalBlockStmt(Env(), n, s.blocks, i, frame, Memo()), full, t, err, stop, index, mid, before);
        t := if err.None? then t.Plus(o.trace) else t;
      }
      if err.None? && !stop {
        EvalBlockStmtStep(Env(), n, s.blocks, i, frame, Memo());
      }
      Ends(EvalBlockStmt(Env(), n, s.blocks, i, frame, Memo()), full, t, err, stop, index, before);
      index := if stop then index else 0;
    }

    /** The operands of a with statement, and the value that replaces the local. */
    method ReplacedValue(c: Bytes, at: int, ghost s: Stmt<nat>) returns (local: int, v: Res<Maybe>, block: int)
      requires s.With? && At(c, at, Encode(s)) && Fits(s)
      ensures local == s.local && v == Upsert(globals.ops, frame.Get(s.local), s.segments, frame.Val(globals.ops, s.item))
      ensures At(c, block, EncodeBlock(s.block)) && BlockFits(s.block)
    {
      hide At, EncodeBlock, Encode, Fits, BlockFits, UWordsAt, Upsert, OperandWord, ToOperand, Unsigneds, ToSigned;
      FitsParts(s);
      EncodedParts(c, at, s);
      NestedIs(s);
      WithFields(c, at, s);
      var fields := UWordsAt(c, at + 4, 3).value;
      var item, pathLen := ToOperand(fields[1]).value, fields[2];
      var path := ToSigned(UWordsAt(c, at + 16, pathLen).value);
      local, block := fields[0], at + 16 + 4 * (pathLen as int);
      v := Upsert(globals.ops, frame.Get(local), path, frame.Val(globals.ops, item));
    }

    /** Calls inside see the replaced document, and a layer of remembered calls of their
        own, which is gone on every exit. */
    method ExecuteWith(c: Bytes, at: int, ghost n: nat, ghost s: Stmt<nat>)
      returns (stop: bool, index: int, err: Option<Error>)
      requires Ready() && n <= |globals.funcs| && CallsBelow(s, n) && At(c, at, Encode(s)) && Fits(s)
      requires s.With? && globals.Settled()
      modifies this, globals
      ensures Ran(Eval(Env(), n, s, old(frame), old(Memo())), err, stop, index, old(Now()))
      decreases 2 * n, s, 0, 0
    {
      hide At, EncodeBlock, Encode, Fits, CallsBelow, EvalStmts, Eval, BlockFits;
      hide BlockCallsBelow, Upsert, FuncsAt, FuncFits, FuncCallsBelow;
      CallsBelowParts(s, n);
      EvalWithParts(Env(), n, s, frame, Memo());
      ghost var layers := globals.memoize;
      var local, v, block := ReplacedValue(c, at, s);
      globals.MemoizePush();
      assert globals.memoize[..|layers|] == layers;
      if v.Err? {
        globals.MemoizePop();
        return false, 0, Some(v.error);
      }
      stop, index, err := RunReplaced(c, block, local, v.v, n, s.block);
      globals.MemoizePop();
      assert globals.memoize == layers;
    }

    /** The block of a with statement: the local is replaced before and restored after. */
    method RunReplaced(c: Bytes, at: int, local: int, v: Maybe, ghost n: nat, ghost b: Block<nat>)
      returns (stop: bool, index: int, err: Option<Error>)
      requires Ready() && globals.Settled() && n <= |globals.funcs| && BlockCallsBelow(b, n)
      requires At(c, at, EncodeBlock(b)) && BlockFits(b)
      modifies this, globals
      ensures Kept(old(Now()))
      ensures var o := EvalStmts(Env(), n, b.stmts, 0, old(frame).Set(local, v), old(Memo()));
              && (err.Some? ==> Excused(o, err.value) && Spent(old(Now()).count + o.trace.steps))
              && (err.None? ==>
                    && o.Done? && stop == o.stop && index == 0 && frame == o.frame.Set(local, old(frame).Get(local))
                    && Now() == old(Now()).(results := old(globals.resultSet) + o.trace.adds,
                                            count := old(Now()).count + o.trace.steps))
      decreases 2 * n, b, 0, 1
    {
      hide At, EncodeBlock, EvalStmts, BlockFits, FuncsAt, FuncFits, FuncCallsBelow;
      var saved := frame.Get(local);
      frame := frame.Set(local, v);
      stop, index, err := ExecuteStatements(c, at, n, b);
      frame := frame.Set(local, saved);
      index := 0;
    }

    /** A function's own run: answered from the top layer, or executed and remembered. */
    method CallFunction(at: int, args: seq<Maybe>, ghost i: nat) returns (err: Option<Error>)
      requires Ready() && globals.Settled() && frame == Env().Fresh()
      requires i < |globals.funcs| && globals.funcs[i].Func? && at == FuncOffset(globals.functions, i)
      modifies this, globals
      ensures CallRan(EvalFunc(Env(), i, args, old(Memo())), err, old(Now()))
      decreases 2 * i + 1, 1
    {
      hide EvalFunc, RunFunc, UWordsAt, At, EncodeBlocks, BlocksFit, FuncsAt, FuncFits, FuncCallsBelow, KeyOf, Hashable, Blanks;
      globals.FunctionFacts(i);
      FuncCall(Env(), i, args, Memo());
      var c := globals.functions;
      var index, ret, n := U32(c, at + 8), U32(c, at + 12), U32(c, at + 32);
      if n < 2 || |args| < n {
        return Some(Panic); // the arguments cannot be sliced
      }
      var funArgs := args[2..n];
      if !Hashable(funArgs) {
        err := RunBlocks(at, args, i);
        return;
      }
      MoreResults(globals.resultSet, Trace({}, Blanks(funArgs), 0), RunFunc(Env(), i, args, Memo()).trace);
      var value, ok := globals.MemoizeGet(index, funArgs);
      if ok {
        if value.Some? {
          frame := frame.Set(ret, value).(ret := ret);
        }
        return None;
      }
      err := RunBlocks(at, args, i);
      var result := if frame.ret >= 0 then frame.Get(frame.ret) else None;
      globals.MemoizeInsert(index, funArgs, result);
    }

    /** A function's blocks, in a frame that holds its arguments. */
    method RunBlocks(at: int, args: seq<Maybe>, ghost i: nat) returns (err: Option<Error>)
      requires Ready() && globals.Settled() && frame == Env().Fresh()
      requires i < |globals.funcs| && globals.funcs[i].Func? && at == FuncOffset(globals.functions, i)
      requires |args| >= |globals.funcs[i].params|
      modifies this, globals
      ensures CallRan(RunFunc(Env(), i, args, old(Memo())), err, old(Now()))
      decreases 2 * i + 1, 0
    {
      hide EvalFunc, RunFunc, UWordsAt, At, EncodeBlocks, BlocksFit, EvalBlocks, FuncsAt, FuncFits, FuncCallsBelow, BlockCallsBelow;
      globals.FunctionFacts(i);
      ghost var f := globals.funcs[i];
      RunParts(Env(), i, args, Memo());
      SetParams(globals.functions, at, args, i);
      err := ExecuteBlocks(globals.functions, at + U32(globals.functions, at + 28), i, f.blocks);
    }

    /** The arguments go into the parameters' locals, in order. */
    method SetParams(c: Bytes, at: int, args: seq<Maybe>, ghost i: nat)
      requires i < |globals.funcs| && globals.funcs[i].Func? && |args| >= |globals.funcs[i].params|
      requires 0 <= at && at + 36 <= |c| && U32(c, at + 32) == |globals.funcs[i].params|
      requires UWordsAt(c, at + 36, |globals.funcs[i].params|) == Some(globals.funcs[i].params)
      requires frame == Env().Fresh()
      modifies this
      ensures frame == Env().Enter(globals.funcs[i].params, args, |globals.funcs[i].params|)
    {
      hide UWordsAt;
      var n := U32(c, at + 32);
      var params := UWordsAt(c, at + 36, n).value;
      for k := 0 to n
        invariant frame == Env().Enter(params, args, k)
      {
        frame := frame.Set(params[k], args[k]);
      }
    }

    /** The blocks of a function, one after the other. */
    method ExecuteBlocks(c: Bytes, at: int, ghost n: nat, ghost bs: seq<Block<nat>>) returns (err: Option<Error>)
      requires Ready() && globals.Settled() && n <= |globals.funcs|
      requires At(c, at, EncodeBlocks(bs)) && BlocksFit(bs) && forall i | 0 <= i < |bs| :: BlockCallsBelow(bs[i], n)
      modifies this, globals
      ensures Ran(EvalBlocks(Env(), n, bs, 0, old(frame), old(Memo())), err, false, 0, old(Now()))
      decreases 2 * n, bs, 1
    {
      hide At, EncodeBlock, EncodeBlocks, EvalBlocks, EvalBlock, BlockCallsBelow, BlockFits;
      hide BlockAt, FuncsAt, FuncFits, FuncCallsBelow, After;
      hide Ran, Underway;
      BlocksFitParts(c, at, bs);
      ghost var full, t, before := EvalBlocks(Env(), n, bs, 0, frame, Memo()), NOTHING, Now();
      Begins(full);
      err := None;
      var i, count := 0, U32(c, at + 4);
      while i < count && err.None?
        invariant 0 <= i <= count == |bs| && globals.memoize != []
        invariant Underway(EvalBlocks(Env(), n, bs, i, frame, Memo()), full, t, err, false, 0, before)
      {
        Standing(EvalBlocks(Env(), n, bs, i, frame, Memo()), full, t, 0, before);
        EvalBlocksStep(Env(), n, bs, i, frame, Memo());
        ghost var o, mid := EvalBlock(Env(), n, bs[i], frame, Memo()), Now();
        ghost var next := if o.Done? then EvalBlocks(Env(), n, bs, i + 1, o.frame, o.memo) else o;
        var stop, index;
        stop, index, err := ExecuteBlock(c, BlockAt(c, at, i).value, n, bs[i]);
        i := i + 1;
        PartRan(o, err, stop, index, mid);
        GoesOnAnyway(o, next, EvalBlocks(Env(), n, bs, i, frame, Memo()), full, t, err, stop, index, mid, before);
        t := if err.None? then t.Plus(o.trace) else t;
      }
      if err.None? {
        EvalBlocksStep(Env(), n, bs, i, frame, Memo());
      }
      Ends(EvalBlocks(Env(), n, bs, i, frame, Memo()), full, t, err, false, 0, before);
    }

    /** Of `e` blocks of a plan to be entered, `k` have been. */
    ghost predicate Entering(bs: seq<Block<nat>>, k: nat, e: nat, err: Option<Error>)
      reads this, globals
      requires Env().Valid() && k <= |bs| && forall i | 0 <= i < |bs| :: BlockCallsBelow(bs[i], |globals.funcs|)
    {
      && k <= e && (e == k || err.None? || Over())
      && (err.None? ==> globals.memoize != [] && e == k + Entered(Env(), |globals.funcs|, bs, k, frame, Memo()))
    }

    /** plan.Execute: each block is counted as one instruction before it runs. */
    method ExecutePlan(c: Bytes, at: int, ghost bs: seq<Block<nat>>) returns (err: Option<Error>)
      requires Ready() && globals.Settled() && At(c, at, EncodeBlocks(bs)) && BlocksFit(bs)
      requires forall i | 0 <= i < |bs| :: BlockCallsBelow(bs[i], |globals.funcs|)
      modifies this, globals
      ensures var n, fr, memo := |globals.funcs|, old(frame), old(Memo());
              Ran(After(Ticks(Entered(Env(), n, bs, 0, fr, memo)), EvalBlocks(Env(), n, bs, 0, fr, memo)), err, false, 0,
                  old(Now()).(lag := Lag()))
      ensures err.None? ==> Lag() == old(Lag()) - |bs|
    {
      hide At, EncodeBlock, EncodeBlocks, EvalBlocks, EvalBlock, Entered, BlockCallsBelow, BlockFits;
      hide BlockAt, FuncsAt, FuncFits, FuncCallsBelow, After;
      BlocksFitParts(c, at, bs);
      ghost var n := |globals.funcs|;
      ghost var full, t, before := EvalBlocks(Env(), n, bs, 0, frame, Memo()), NOTHING, Now();
      ghost var e := Entered(Env(), n, bs, 0, frame, Memo());
      Begins(full);
      PlusSteps(e, full);
      err := None;
      var i, count := 0, U32(c, at + 4);
      while i < count
        invariant 0 <= i <= count == |bs| && err.None? && globals.memoize != [] && Entering(bs, i, e, err)
        invariant Underway(EvalBlocks(Env(), n, bs, i, frame, Memo()), full, t, err, false, 0,
                           before.(lag := before.lag - i, count := before.count + i))
      {
        err, t := ExecutePlanBlock(c, BlockAt(c, at, i).value, bs, i, full, t, before, e);
        if err.Some? {
          return;
        }
        i := i + 1;
      }
      EvalBlocksStep(Env(), n, bs, i, frame, Memo());
      EnteredStep(Env(), n, bs, i, frame, Memo());
      NothingLeft(t, frame, Memo());
    }

    /** One block of a plan. */
    method ExecutePlanBlock(c: Bytes, at: int, ghost bs: seq<Block<nat>>, ghost i: nat, ghost full: Outcome, ghost t: Trace,
                            ghost before: Snap, ghost e: nat)
      returns (err: Option<Error>, ghost t': Trace)
      requires Ready() && globals.Settled() && i < |bs| && forall k | 0 <= k < |bs| :: BlockCallsBelow(bs[k], |globals.funcs|)
      requires At(c, at, EncodeBlock(bs[i])) && BlockFits(bs[i]) && Entering(bs, i, e, None)
      requires Underway(EvalBlocks(Env(), |globals.funcs|, bs, i, frame, Memo()), full, t, None, false, 0,
                        before.(lag := before.lag - i, count := before.count + i))
      modifies this, globals
      ensures globals.memoize != [] && globals.InBudget() && globals.open == before.open && globals.Stacked(before.lower)
      ensures err.Some? ==> Excused(full, err.value) && Spent(before.count + e + full.trace.steps)
      ensures err.None? ==> Entering(bs, i + 1, e, err)
      ensures err.None? ==>
                Underway(EvalBlocks(Env(), |globals.funcs|, bs, i + 1, frame, Memo()), full, t', err, false, 0,
                         before.(lag := before.lag - (i + 1), count := before.count + i + 1))
    {
      hide At, EncodeBlock, EvalBlocks, EvalBlock, Entered, BlockCallsBelow, BlockFits, FuncsAt, FuncFits, FuncCallsBelow, After;
      ghost var n := |globals.funcs|;
      t' := t;
      LaterCount(t, full, EvalBlocks(Env(), n, bs, i, frame, Memo()));
      err := globals.Instr(1);
      if err.Some? {
        return;
      }
      ghost var now := before.(lag := before.lag - (i + 1), count := before.count + i + 1);
      EvalBlocksStep(Env(), n, bs, i, frame, Memo());
      EnteredStep(Env(), n, bs, i, frame, Memo());
      ghost var o, mid := EvalBlock(Env(), n, bs[i], frame, Memo()), Now();
      ghost var next := if o.Done? then EvalBlocks(Env(), n, bs, i + 1, o.frame, o.memo) else o;
      var stop, index;
      stop, index, err := ExecuteBlock(c, at, n, bs[i]);
      PartRan(o, err, stop, index, mid);
      GoesOnAnyway(o, next, EvalBlocks(Env(), n, bs, i + 1, frame, Memo()), full, t, err, stop, index, mid, now);
      t' := if err.None? then t.Plus(o.trace) else t;
    }
  }

  /** VM.Eval: running a plan's bytes gives the result that evaluation with remembered
      calls gives, unless the budget runs out. It runs out only if more than the limit has
      been counted, and what is counted is what the plan costs; so it does not if the cost
      is within the limit, and it does if the cost is more than 32 beyond it. */
  method EvalPlan(ops: Ops, functions: Bytes, plan: Bytes, at: int, limit: int, start: int, input: Maybe, data: Maybe,
                  ghost funcs: seq<Func<nat>>, ghost bs: seq<Block<nat>>)
    returns (r: Res<set<Value>>, counted: int)
    requires Env(ops, funcs, input, data, true).Valid() && FuncsAt(functions, funcs)
    requires forall i | 0 <= i < |funcs| :: FuncFits(funcs[i])
    requires At(plan, at, EncodeBlocks(bs)) && BlocksFit(bs) && forall i | 0 <= i < |bs| :: BlockCallsBelow(bs[i], |funcs|)
    ensures var env := Env(ops, funcs, input, data, true);
            && (r == PlanResult(env, bs) || (r == Err(LimitExceeded) && counted > limit))
            && Charged(r, counted, start, limit, PlanCost(env, bs))
            && (start + PlanCost(env, bs) <= limit ==> r == PlanResult(env, bs))
            && (start + PlanCost(env, bs) > limit + 32 && PlanCost(env, bs) > 0 ==> r.Err?)
  {
    hide At, EncodeBlocks, EvalBlocks, Entered, BlockCallsBelow, BlocksFit, FuncsAt, FuncFits, FuncCallsBelow;
    var globals := new Globals(ops, functions, limit, start, input, data, funcs);
    var state := new State(globals);
    var err := state.ExecutePlan(plan, at, bs);
    counted := globals.evalInstructions;
    ghost var env := Env(ops, funcs, input, data, true);
    ghost var o := EvalBlocks(env, |funcs|, bs, 0, env.Fresh(), map[]);
    if err.Some? {
      r := Err(err.value);
    } else {
      r := Ok(globals.resultSet);
      assert {} + ({} + o.trace.adds) == o.trace.adds;
    }
  }

  /** What is counted when a plan that costs `cost` has run: all of it, or as much as has
      taken the counter over the limit, by 32 at most. */
  predicate Charged(r: Res<set<Value>>, counted: int, start: int, limit: int, cost: nat) {
    && counted <= start + cost && (counted == start + cost || (r.Err? && counted > limit))
    && (counted <= start || counted <= limit + 32)
  }
}
