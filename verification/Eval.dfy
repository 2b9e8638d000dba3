/** What a compiled policy means: a structural evaluator without budget or bytes, which
    remembers the results of calls or does not. Data operations and builtins are arbitrary
    deterministic functions. */
module Evaluation {
  import opened ByteCodec
  import opened Ir

  /** Strings are told apart because memoization keys them by their text; collections
      because it does not key them at all. */
  datatype Value = Str(text: string) | Scalar(id: int) | Collection(id: int)

  datatype Error = VarAssignConflict | ObjectInsertConflict | LimitExceeded | Panic | Failure(code: int)

  datatype Res<+T> = Ok(v: T) | Err(error: Error)

  /** An undefined value is None. */
  type Maybe = Option<Value>

  datatype Ops = Ops(
    boolean: bool -> Value,
    text: int -> Value,
    number: int -> Value,
    numberRef: int -> Value,
    makeArray: int -> Value,
    nil: Value,
    emptySet: Value,
    emptyObject: Value,
    equal: (Maybe, Maybe) -> Res<bool>,
    isArray: Value -> Res<bool>,
    isSet: Value -> Res<bool>,
    isObject: Value -> Res<bool>,
    get: (Value, Value) -> Res<Maybe>,
    numberText: Value -> Res<Maybe>,
    len: Maybe -> Res<Value>,
    iter: Maybe -> Res<seq<(Value, Value)>>,
    append: (Maybe, Maybe) -> Res<Maybe>,
    setAdd: (Maybe, Maybe) -> Res<Value>,
    objectGet: (Maybe, Maybe) -> Res<Maybe>,
    objectInsert: (Maybe, Maybe, Maybe) -> Res<(Value, bool)>,
    objectMerge: (Value, Value) -> Res<Value>,
    copyShallow: Value -> Res<Value>,
    builtin: (nat, seq<Maybe>) -> Res<Maybe>)

  const INPUT := 0
  const DATA := 1

  /** The registers of one call: locals without an entry are undefined. */
  datatype Frame = Frame(locals: map<int, Value>, data: set<int>, ret: int) {
    function Get(l: int): Maybe { if l in locals then Some(locals[l]) else None }

    function Set(l: int, v: Maybe): Frame {
      this.(locals := if v.Some? then locals[l := v.value] else locals - {l})
    }

    function Unset(l: int): Frame { Set(l, None).(data := data - {l}) }

    function Val(ops: Ops, o: Operand): Maybe {
      match o
      case Local(l) => Get(l)
      case BoolConst(b) => Some(ops.boolean(b))
      case StringIndex(i) => Some(ops.text(i))
    }

    /** The return value counts only if it is defined. */
    function Return(l: int): Frame { this.(ret := if l in locals then l else -1) }

    function Vals(ops: Ops, os: seq<Operand>): (r: seq<Maybe>)
      ensures |r| == |os|
    {
      seq(|os|, i requires 0 <= i < |os| => Val(ops, os[i]))
    }
  }

  // ---- Keys of remembered calls ----

  /** h: a string is keyed by its text, anything else by itself. */
  datatype Arg = Arg(a: Maybe, s: string)

  function H(v: Maybe): Arg {
    if v.Some? && v.value.Str? then Arg(None, v.value.text) else Arg(v, "")
  }

  datatype Key = Key(idx: nat, args: seq<Arg>)

  function KeyOf(idx: nat, args: seq<Maybe>): Key {
    Key(idx, seq(|args|, i requires 0 <= i < |args| => H(args[i])))
  }

  /** The two values that share a key: undefined and the empty string. */
  predicate Blankish(v: Maybe) { v == None || v == Some(Str("")) }

  /** The results of calls, as far as they are remembered for the documents in force. */
  type Memo = map<Key, Maybe>

  /** isHashable: at most nine arguments, no collection among them. */
  predicate Hashable(args: seq<Maybe>) {
    |args| <= 9 && forall i | 0 <= i < |args| && args[i].Some? :: !args[i].value.Collection?
  }

  /** Which of the two values are among the arguments. */
  function Blanks(args: seq<Maybe>): set<Maybe> {
    (if None in args then {None} else {}) + if Some(Str("")) in args then {Some(Str(""))} else {}
  }

  // ---- Outcomes ----

  /** What a statement without blocks does. A stop with index k breaks k further levels. */
  datatype Effect =
    | Bad(error: Error)
    | Good(stop: bool, index: int, frame: Frame, adds: set<Value>)

  function Next(fr: Frame): Effect { Good(false, 0, fr, {}) }

  function Stop(fr: Frame): Effect { Good(true, 0, fr, {}) }

  /** What a run leaves behind: the values added to the result set, which of undefined and
      the empty string were passed to a function whose calls can be remembered, and how many
      statements blocks have dispatched. */
  datatype Trace = Trace(adds: set<Value>, blanks: set<Maybe>, steps: nat) {
    function Plus(t: Trace): Trace { Trace(adds + t.adds, blanks + t.blanks, steps + t.steps) }
  }

  const NOTHING := Trace({}, {}, 0)

  function Ticks(n: nat): Trace { Trace({}, {}, n) }

  lemma PlusNothing(t: Trace)
    ensures NOTHING.Plus(t) == t && t.Plus(NOTHING) == t
  {
    assert {} + t.adds == t.adds && {} + t.blanks == t.blanks;
  }

  lemma PlusPlus(t: Trace, u: Trace, w: Trace)
    ensures t.Plus(u).Plus(w) == t.Plus(u.Plus(w))
  {
    assert t.adds + u.adds + w.adds == t.adds + (u.adds + w.adds);
    assert t.blanks + u.blanks + w.blanks == t.blanks + (u.blanks + w.blanks);
  }

  /** How statements end, and which calls are remembered then. */
  datatype Outcome =
    | Fail(error: Error, trace: Trace)
    | Done(stop: bool, index: int, frame: Frame, memo: Memo, trace: Trace)

  function Through(fr: Frame, memo: Memo): Outcome { Done(false, 0, fr, memo, NOTHING) }

  function Fails(e: Error): Outcome { Fail(e, NOTHING) }

  function Lifted(e: Effect, memo: Memo): Outcome {
    match e
    case Bad(error) => Fails(error)
    case Good(stop, index, frame, adds) => Done(stop, index, frame, memo, Trace(adds, {}, 0))
  }

  /** `o`, after earlier statements have left `t`. */
  function After(t: Trace, o: Outcome): Outcome { o.(trace := t.Plus(o.trace)) }

  // ---- Statements without blocks ----

  /** Stops unless the test succeeds. */
  function Test(fr: Frame, r: Res<bool>): Effect {
    match r
    case Err(e) => Bad(e)
    case Ok(b) => if b then Next(fr) else Stop(fr)
  }

  function EqualStep(ops: Ops, a: Maybe, b: Maybe, fr: Frame): Effect {
    if a.None? && b.None? then Next(fr)
    else if a.Some? && b.Some? then Test(fr, ops.equal(a, b))
    else Stop(fr)
  }

  function Inverted(o: Effect): Effect {
    match o
    case Bad(_) => o
    case Good(stop, _, _, _) => o.(stop := !stop)
  }

  function TypeStep(test: Value -> Res<bool>, v: Maybe, fr: Frame): Effect {
    if v.None? then Stop(fr) else Test(fr, test(v.value))
  }

  /** Assigns the value that an operation returns, if it does. */
  function Assign(fr: Frame, target: int, r: Res<Maybe>): Effect {
    match r
    case Err(e) => Bad(e)
    case Ok(v) => if v.Some? then Next(fr.Set(target, v)) else Next(fr)
  }

  function AssignDefined(fr: Frame, target: int, r: Res<Value>): Effect {
    match r
    case Err(e) => Bad(e)
    case Ok(v) => Next(fr.Set(target, Some(v)))
  }

  function AssignOnce(ops: Ops, source: Maybe, target: int, fr: Frame): Effect {
    if fr.Get(target).None? then Next(fr.Set(target, source))
    else if source.None? then Bad(VarAssignConflict)
    else
      match ops.equal(source, fr.Get(target))
      case Err(e) => Bad(e)
      case Ok(eq) => if eq then Next(fr) else Bad(VarAssignConflict)
  }

  /** Access to the data document also tries a number key as text. */
  function DataGet(ops: Ops, v: Value, key: Value): Res<Maybe> {
    match ops.get(v, key)
    case Err(e) => Err(e)
    case Ok(r) =>
      if r.Some? then Ok(r)
      else
        match ops.numberText(key)
        case Err(e) => Err(e)
        case Ok(text) => if text.None? then Ok(None) else ops.get(v, text.value)
  }

  function DotStep(ops: Ops, source: Operand, key: Operand, target: int, fr: Frame): Effect {
    if !source.Local? then Stop(fr)
    else
      var v, k := fr.Get(source.local), fr.Val(ops, key);
      if v.None? || k.None? then Stop(fr.Unset(target))
      else
        var data := source.local in fr.data;
        match if data then DataGet(ops, v.value, k.value) else ops.get(v.value, k.value)
        case Err(e) => Bad(e)
        case Ok(r) =>
          if r.None? then Stop(fr.Unset(target))
          else
            var fr' := fr.Set(target, r);
            Next(if data then fr'.(data := fr'.data + {target}) else fr')
  }

  function InsertStep(ops: Ops, key: Maybe, item: Maybe, target: int, fr: Frame): Effect {
    match ops.objectInsert(fr.Get(target), key, item)
    case Err(e) => Bad(e)
    case Ok(r) => if r.1 then Next(fr.Set(target, Some(r.0))) else Next(fr)
  }

  function InsertOnce(ops: Ops, key: Maybe, item: Maybe, target: int, fr: Frame): Effect {
    match ops.objectGet(fr.Get(target), key)
    case Err(e) => Bad(e)
    case Ok(existing) =>
      if existing.None? then InsertStep(ops, key, item, target, fr)
      else
        match ops.equal(item, existing)
        case Err(e) => Bad(e)
        case Ok(eq) => if eq then InsertStep(ops, key, item, target, fr) else Bad(ObjectInsertConflict)
  }

  function MergeStep(ops: Ops, a: Maybe, b: Maybe, target: int, fr: Frame): Effect {
    if a.None? then Next(fr.Set(target, b))
    else if b.None? then Next(fr.Set(target, a))
    else
      match ops.isObject(a.value)
      case Err(e) => Bad(e)
      case Ok(yes) =>
        if !yes then Bad(ObjectInsertConflict)
        else
          match ops.isObject(b.value)
          case Err(e) => Bad(e)
          case Ok(yes) =>
            if !yes then Bad(ObjectInsertConflict)
            else AssignDefined(fr, target, ops.objectMerge(a.value, b.value))
  }

  function Step(ops: Ops, s: Stmt<nat>, fr: Frame): Effect {
    match s
    case Nop => Next(fr)
    case ArrayAppend(item, target) => Assign(fr, target, ops.append(fr.Get(target), fr.Val(ops, item)))
    case AssignInt(value, target) => Next(fr.Set(target, Some(ops.number(value))))
    case AssignVar(source, target) => Next(fr.Set(target, fr.Val(ops, source)))
    case AssignVarOnce(source, target) => AssignOnce(ops, fr.Val(ops, source), target, fr)
    case Break(levels) => Good(true, levels, fr, {})
    case Dot(source, key, target) => DotStep(ops, source, key, target, fr)
    case Equal(a, b) => EqualStep(ops, fr.Val(ops, a), fr.Val(ops, b), fr)
    case IsArray(source) => TypeStep(ops.isArray, fr.Val(ops, source), fr)
    case IsDefined(local) => if fr.Get(local).Some? then Next(fr) else Stop(fr)
    case IsObject(source) => TypeStep(ops.isObject, fr.Val(ops, source), fr)
    case IsSet(source) => TypeStep(ops.isSet, fr.Val(ops, source), fr)
    case IsUndefined(local) => if fr.Get(local).None? then Next(fr) else Stop(fr)
    case Len(source, target) => AssignDefined(fr, target, ops.len(fr.Val(ops, source)))
    case MakeArray(capacity, target) => Next(fr.Set(target, Some(ops.makeArray(capacity))))
    case MakeNull(target) => Next(fr.Set(target, Some(ops.nil)))
    case MakeNumberInt(value, target) => Next(fr.Set(target, Some(ops.number(value))))
    case MakeNumberRef(text, target) => Next(fr.Set(target, Some(ops.numberRef(text))))
    case MakeObject(target) => Next(fr.Set(target, Some(ops.emptyObject)))
    case MakeSet(target) => Next(fr.Set(target, Some(ops.emptySet)))
    case NotEqual(a, b) => Inverted(EqualStep(ops, fr.Val(ops, a), fr.Val(ops, b), fr))
    case ObjectInsert(key, item, target) => InsertStep(ops, fr.Val(ops, key), fr.Val(ops, item), target, fr)
    case ObjectInsertOnce(key, item, target) => InsertOnce(ops, fr.Val(ops, key), fr.Val(ops, item), target, fr)
    case ObjectMerge(left, right, target) => MergeStep(ops, fr.Get(left), fr.Get(right), target, fr)
    case ResetLocal(target) => Next(fr.Unset(target))
    case ResultSetAdd(local) =>
      Next(fr).(adds := if fr.Get(local).Some? then {fr.Get(local).value} else {})
    case ReturnLocal(local) => Next(fr.Return(local))
    case SetAdd(item, target) => AssignDefined(fr, target, ops.setAdd(fr.Get(target), fr.Val(ops, item)))
    case _ => Bad(Panic)
  }

  // ---- with: the value that replaces a document ----

  /** upsert below the root: copies the objects on the path and inserts bottom-up. */
  function Insert(ops: Ops, obj: Value, path: seq<int>, v: Maybe): Res<Value>
    requires path != []
    decreases |path|
  {
    var key := ops.text(path[0]);
    if |path| == 1 then Inserted(ops.objectInsert(Some(obj), Some(key), v))
    else
      match Child(ops, obj, key)
      case Err(e) => Err(e)
      case Ok(child) =>
        match Insert(ops, child, path[1..], v)
        case Err(e) => Err(e)
        case Ok(child') => Inserted(ops.objectInsert(Some(obj), Some(key), Some(child')))
  }

  function Inserted(r: Res<(Value, bool)>): Res<Value> {
    match r
    case Err(e) => Err(e)
    case Ok(p) => Ok(p.0)
  }

  function CopiedIf(ops: Ops, test: Res<bool>, v: Value): Res<Value> {
    match test
    case Err(e) => Err(e)
    case Ok(b) => if b then ops.copyShallow(v) else Ok(ops.emptyObject)
  }

  function Child(ops: Ops, obj: Value, key: Value): Res<Value> {
    match ops.get(obj, key)
    case Err(e) => Err(e)
    case Ok(c) => if c.None? then Ok(ops.emptyObject) else CopiedIf(ops, ops.isObject(c.value), c.value)
  }

  function Upsert(ops: Ops, original: Maybe, path: seq<int>, v: Maybe): Res<Maybe> {
    if path == [] then Ok(v)
    else
      match if original.None? then Ok(ops.emptyObject) else CopiedIf(ops, ops.isObject(original.value), original.value)
      case Err(e) => Err(e)
      case Ok(root) =>
        match Insert(ops, root, path, v)
        case Err(e) => Err(e)
        case Ok(r) => Ok(Some(r))
  }

  // ---- Calls ----

  /** A call's outcome for the caller: whether it returned, and what. */
  datatype Result =
    | Failed(error: Error, trace: Trace)
    | Returned(has: bool, value: Maybe, memo: Memo, trace: Trace)

  /** The policy under evaluation: data operations, functions, the global input and data
      documents, and whether the results of calls are remembered. */
  datatype Env = Env(ops: Ops, funcs: seq<Func<nat>>, input: Maybe, data: Maybe, memoize: bool) {
    ghost predicate Valid() {
      forall i | 0 <= i < |funcs| :: FuncCallsBelow(funcs[i], i)
    }

    /** newState. */
    function Fresh(): Frame {
      Frame(map[], {DATA}, -1).Set(INPUT, input).Set(DATA, data)
    }

    /** A call's frame: the arguments stand in the parameters' locals. */
    function Enter(params: seq<int>, args: seq<Maybe>, n: nat): Frame
      requires n <= |params| <= |args|
    {
      if n == 0 then Fresh() else Enter(params, args, n - 1).Set(params[n - 1], args[n - 1])
    }
  }

  // ---- Control flow ----

  /** A block consumes one level of a break. */
  function LeaveBlock(o: Outcome): Outcome {
    if o.Fail? then o
    else if o.stop && o.index != 0 then o.(index := o.index - 1)
    else o.(stop := false, index := 0)
  }

  /** `not` falls through exactly when its block does not. */
  function LeaveNot(o: Outcome): Outcome {
    if o.Fail? then o
    else if !o.stop then o.(stop := true, index := 0)
    else if o.index == 0 then o.(stop := false, index := 0)
    else o.(index := o.index - 1)
  }

  /** `with` restores the local and the remembered calls, and flattens a break to index 0. */
  function LeaveWith(o: Outcome, local: int, saved: Maybe, memo: Memo): Outcome {
    if o.Fail? then o else o.(index := 0, frame := o.frame.Set(local, saved), memo := memo)
  }

  ghost function Eval(env: Env, n: nat, s: Stmt<nat>, fr: Frame, memo: Memo): Outcome
    requires env.Valid() && n <= |env.funcs| && CallsBelow(s, n)
    decreases 2 * n, s, 1, 0
  {
    match s
    case BlockStmt(blocks) => EvalBlockStmt(env, n, blocks, 0, fr, memo)
    case Not(block) =>
      assert BlockCallsBelow(block, n);
      LeaveNot(EvalStmts(env, n, block.stmts, 0, fr, memo))
    case Scan(local, keyLocal, valueLocal, block) =>
      (match env.ops.iter(fr.Get(local))
       case Err(e) => Fails(e)
       case Ok(elems) => LeaveBlock(EvalScan(env, n, keyLocal, valueLocal, block, elems, 0, fr, memo)))
    case With(local, segments, item, block) =>
      (match Upsert(env.ops, fr.Get(local), segments, fr.Val(env.ops, item))
       case Err(e) => Fails(e)
       case Ok(v) =>
         assert BlockCallsBelow(block, n);
         LeaveWith(EvalStmts(env, n, block.stmts, 0, fr.Set(local, v), map[]), local, fr.Get(local), memo))
    case Call(func, args, result) => CallStep(EvalFunc(env, func, fr.Vals(env.ops, args), memo), result, fr)
    case _ => Lifted(Step(env.ops, s, fr), memo)
  }

  function CallStep(r: Result, result: int, fr: Frame): Outcome {
    match r
    case Failed(e, t) => Fail(e, t)
    case Returned(has, value, memo, t) =>
      if has then Done(false, 0, fr.Set(result, value), memo, t) else Done(true, 0, fr, memo, t)
  }

  /** Statements in turn until one stops or fails. */
  ghost function EvalStmts(env: Env, n: nat, ss: seq<Stmt<nat>>, k: nat, fr: Frame, memo: Memo): Outcome
    requires env.Valid() && n <= |env.funcs| && k <= |ss| && forall i | 0 <= i < |ss| :: CallsBelow(ss[i], n)
    decreases 2 * n, ss, 0, |ss| - k
  {
    if k == |ss| then Through(fr, memo)
    else
      var o := Eval(env, n, ss[k], fr, memo);
      if o.Fail? || o.stop then o else After(o.trace, EvalStmts(env, n, ss, k + 1, o.frame, o.memo))
  }

  ghost function EvalBlock(env: Env, n: nat, b: Block<nat>, fr: Frame, memo: Memo): Outcome
    requires env.Valid() && n <= |env.funcs| && BlockCallsBelow(b, n)
    decreases 2 * n, b, 0, 0
  {
    LeaveBlock(After(Ticks(Dispatched(env, n, b.stmts, 0, fr, memo)), EvalStmts(env, n, b.stmts, 0, fr, memo)))
  }

  /** How many statements of a sequence are dispatched until one stops or fails. */
  ghost function Dispatched(env: Env, n: nat, ss: seq<Stmt<nat>>, k: nat, fr: Frame, memo: Memo): nat
    requires env.Valid() && n <= |env.funcs| && k <= |ss| && forall i | 0 <= i < |ss| :: CallsBelow(ss[i], n)
    decreases 2 * n, ss, 0, |ss| - k
  {
    if k == |ss| then 0
    else
      var o := Eval(env, n, ss[k], fr, memo);
      if o.Fail? || o.stop then 1 else 1 + Dispatched(env, n, ss, k + 1, o.frame, o.memo)
  }

  /** A block statement is no level of its own: it stops when one of its blocks does. */
  ghost function EvalBlockStmt(env: Env, n: nat, bs: seq<Block<nat>>, k: nat, fr: Frame, memo: Memo): Outcome
    requires env.Valid() && n <= |env.funcs| && k <= |bs| && forall i | 0 <= i < |bs| :: BlockCallsBelow(bs[i], n)
    decreases 2 * n, bs, 0, |bs| - k
  {
    if k == |bs| then Through(fr, memo)
    else
      var o := EvalBlock(env, n, bs[k], fr, memo);
      if o.Fail? || o.stop then o else After(o.trace, EvalBlockStmt(env, n, bs, k + 1, o.frame, o.memo))
  }

  /** A scan's locals for one element. */
  function ScanFrame(fr: Frame, keyLocal: int, valueLocal: int, elem: (Value, Value)): Frame {
    fr.Set(keyLocal, Some(elem.0)).Set(valueLocal, Some(elem.1))
  }

  /** A scan stops when its block does. */
  ghost function EvalScan(env: Env, n: nat, keyLocal: int, valueLocal: int, b: Block<nat>, elems: seq<(Value, Value)>,
                          k: nat, fr: Frame, memo: Memo): Outcome
    requires env.Valid() && n <= |env.funcs| && k <= |elems| && BlockCallsBelow(b, n)
    decreases 2 * n, b, 1, |elems| - k
  {
    if k == |elems| then Through(fr, memo)
    else
      var o := EvalBlock(env, n, b, ScanFrame(fr, keyLocal, valueLocal, elems[k]), memo);
      if o.Fail? || o.stop then o
      else After(o.trace, EvalScan(env, n, keyLocal, valueLocal, b, elems, k + 1, o.frame, o.memo))
  }

  /** The blocks of a function or plan: a stop does not reach the next block. */
  ghost function EvalBlocks(env: Env, n: nat, bs: seq<Block<nat>>, k: nat, fr: Frame, memo: Memo): Outcome
    requires env.Valid() && n <= |env.funcs| && k <= |bs| && forall i | 0 <= i < |bs| :: BlockCallsBelow(bs[i], n)
    decreases 2 * n, bs, 0, |bs| - k
  {
    if k == |bs| then Through(fr, memo)
    else
      var o := EvalBlock(env, n, bs[k], fr, memo);
      if o.Fail? then o else After(o.trace, EvalBlocks(env, n, bs, k + 1, o.frame, o.memo))
  }

  /** A function answers from what is remembered, or runs and is remembered. */
  ghost function EvalFunc(env: Env, i: nat, args: seq<Maybe>, memo: Memo): Result
    requires env.Valid() && i < |env.funcs|
    decreases 2 * i + 1, 1
  {
    match env.funcs[i]
    case Builtin(_) =>
      (match env.ops.builtin(i, args)
       case Err(e) => Failed(e, NOTHING)
       case Ok(v) => Returned(v.Some?, v, memo, NOTHING))
    case Func(_, params, _, _) =>
      if |params| < 2 || |args| < |params| then Failed(Panic, NOTHING)
      else
        var own := args[2..|params|];
        var key := KeyOf(i, own);
        if !Hashable(own) then RunFunc(env, i, args, memo)
        else if env.memoize && key in memo then Returned(memo[key].Some?, memo[key], memo, Trace({}, Blanks(own), 0))
        else
          match RunFunc(env, i, args, memo)
          case Failed(e, t) => Failed(e, Trace({}, Blanks(own), 0).Plus(t))
          case Returned(has, value, memo', t) =>
            Returned(has, value, if env.memoize then memo'[key := if has then value else None] else memo',
                     Trace({}, Blanks(own), 0).Plus(t))
  }

  /** A function's blocks, in a frame that holds its arguments. */
  ghost function RunFunc(env: Env, i: nat, args: seq<Maybe>, memo: Memo): Result
    requires env.Valid() && i < |env.funcs| && env.funcs[i].Func? && |args| >= |env.funcs[i].params|
    decreases 2 * i + 1, 0
  {
    var f := env.funcs[i];
    match EvalBlocks(env, i, f.blocks, 0, env.Enter(f.params, args, |f.params|), memo)
    case Fail(e, t) => Failed(e, t)
    case Done(_, _, frame, memo', t) => Returned(frame.ret >= 0, frame.Get(frame.ret), memo', t)
  }

  /** How many blocks are entered until one fails. */
  ghost function Entered(env: Env, n: nat, bs: seq<Block<nat>>, k: nat, fr: Frame, memo: Memo): nat
    requires env.Valid() && n <= |env.funcs| && k <= |bs| && forall i | 0 <= i < |bs| :: BlockCallsBelow(bs[i], n)
    decreases |bs| - k
  {
    if k == |bs| then 0
    else
      var o := EvalBlock(env, n, bs[k], fr, memo);
      if o.Fail? then 1 else 1 + Entered(env, n, bs, k + 1, o.frame, o.memo)
  }

  /** What a plan costs: its blocks, and the statements that blocks dispatch. */
  ghost function PlanCost(env: Env, bs: seq<Block<nat>>): nat
    requires env.Valid() && forall i | 0 <= i < |bs| :: BlockCallsBelow(bs[i], |env.funcs|)
  {
    var n := |env.funcs|;
    Entered(env, n, bs, 0, env.Fresh(), map[]) + EvalBlocks(env, n, bs, 0, env.Fresh(), map[]).trace.steps
  }

  /** The result of a plan. */
  ghost function PlanResult(env: Env, bs: seq<Block<nat>>): Res<set<Value>>
    requires env.Valid() && forall i | 0 <= i < |bs| :: BlockCallsBelow(bs[i], |env.funcs|)
  {
    match EvalBlocks(env, |env.funcs|, bs, 0, env.Fresh(), map[])
    case Fail(e, _) => Err(e)
    case Done(_, _, _, _, t) => Ok(t.adds)
  }
}
