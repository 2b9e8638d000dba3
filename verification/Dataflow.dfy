/** A check of planned code that rules out one of the two values that share a key: that
    no function is passed an undefined value, or that none is passed the empty string.
    It follows each path through the code and keeps the locals that cannot hold it. */
module Dataflow {
  import opened ByteCodec
  import opened Ir
  import opened Evaluation
  import opened EvaluationSteps
  import opened Memoization
  import opened Transparency

  /** A set of locals, or all but a set of them. */
  datatype Locals = Only(ls: set<int>) | AllBut(ls: set<int>) {
    predicate Has(l: int) { if Only? then l in ls else l !in ls }

    function Minus(m: set<int>): Locals { if Only? then Only(ls - m) else AllBut(ls + m) }

    function Plus(l: int): Locals { if Only? then Only(ls + {l}) else AllBut(ls - {l}) }

    function Mark(l: int, clean: bool): Locals { if clean then Plus(l) else Minus({l}) }
  }

  /** What is checked: the policy's constants and functions, the value that must not be
      passed, and which documents are known not to be that value. */
  datatype Check = Check(ops: Ops, funcs: seq<Func<nat>>, taboo: Maybe, docs: set<int>) {
    predicate Undefined() { taboo == None }

    predicate Clean(v: Maybe) { v != taboo }

    predicate OperandClean(o: Operand, d: Locals) {
      match o
      case Local(l) => d.Has(l)
      case BoolConst(b) => Clean(Some(ops.boolean(b)))
      case StringIndex(i) => Clean(Some(ops.text(i)))
    }

    /** The locals that are clean behind a statement without blocks. */
    function Transfer(s: Stmt<nat>, d: Locals): Locals {
      match s
      case AssignVar(source, target) => d.Mark(target, OperandClean(source, d))
      case AssignVarOnce(source, target) =>
        d.Mark(target, if Undefined() then OperandClean(source, d) || d.Has(target) else OperandClean(source, d) && d.Has(target))
      case AssignInt(value, target) => d.Mark(target, Clean(Some(ops.number(value))))
      case MakeNumberInt(value, target) => d.Mark(target, Clean(Some(ops.number(value))))
      case MakeNumberRef(text, target) => d.Mark(target, Clean(Some(ops.numberRef(text))))
      case MakeNull(target) => d.Mark(target, Clean(Some(ops.nil)))
      case MakeArray(capacity, target) => d.Mark(target, Clean(Some(ops.makeArray(capacity))))
      case MakeObject(target) => d.Mark(target, Clean(Some(ops.emptyObject)))
      case MakeSet(target) => d.Mark(target, Clean(Some(ops.emptySet)))
      case Dot(_, _, target) => d.Mark(target, Undefined())
      case Len(_, target) => d.Mark(target, Undefined())
      case SetAdd(_, target) => d.Mark(target, Undefined())
      case Call(_, _, result) => d.Mark(result, Undefined())
      case ArrayAppend(_, target) => if Undefined() then d else d.Minus({target})
      case ObjectInsert(_, _, target) => if Undefined() then d else d.Minus({target})
      case ObjectInsertOnce(_, _, target) => if Undefined() then d else d.Minus({target})
      case ObjectMerge(_, _, target) => d.Minus({target})
      case ResetLocal(target) => d.Mark(target, !Undefined())
      case IsDefined(local) => if Undefined() then d.Plus(local) else d
      case IsUndefined(local) => if Undefined() then d else d.Plus(local)
      case IsArray(source) => Tested(source, d)
      case IsObject(source) => Tested(source, d)
      case IsSet(source) => Tested(source, d)
      case _ => d.Minus(DeepWrites(s))
    }

    /** A value whose type has been tested is defined. */
    function Tested(source: Operand, d: Locals): Locals {
      if Undefined() && source.Local? then d.Plus(source.local) else d
    }

    /** A call passes clean arguments, and clean documents where they are known to be. */
    predicate CallSafe(s: Stmt<nat>, d: Locals)
      requires s.Call?
    {
      s.func < |funcs| && funcs[s.func].Func? ==>
        forall j | 0 <= j < |s.args| && (2 <= j || j in docs) :: OperandClean(s.args[j], d)
    }

    predicate Safe(s: Stmt<nat>, d: Locals)
      decreases s, 1, 0
    {
      match s
      case Call(_, _, _) => CallSafe(s, d)
      case BlockStmt(blocks) => BlocksSafe(blocks, 0, d)
      case Not(block) => StmtsSafe(block.stmts, 0, d)
      case Scan(_, keyLocal, valueLocal, block) =>
        StmtsSafe(block.stmts, 0, ScanEntry(d.Minus({keyLocal, valueLocal} + BlockWrites(block)), keyLocal, valueLocal))
      case With(local, segments, item, block) => StmtsSafe(block.stmts, 0, WithEntry(local, segments, item, d))
      case _ => true
    }

    /** The elements of a collection are defined. */
    function ScanEntry(d: Locals, keyLocal: int, valueLocal: int): Locals {
      if Undefined() then d.Plus(keyLocal).Plus(valueLocal) else d
    }

    function WithEntry(local: int, segments: seq<int>, item: Operand, d: Locals): Locals {
      d.Mark(local, if segments == [] then OperandClean(item, d) else Undefined())
    }

    predicate StmtsSafe(ss: seq<Stmt<nat>>, k: nat, d: Locals)
      requires k <= |ss|
      decreases ss, 0, |ss| - k
    {
      k == |ss| || (Safe(ss[k], d) && StmtsSafe(ss, k + 1, Transfer(ss[k], d)))
    }

    predicate BlocksSafe(bs: seq<Block<nat>>, k: nat, d: Locals)
      requires k <= |bs|
      decreases bs, 0, |bs| - k
    {
      k == |bs| || (StmtsSafe(bs[k].stmts, 0, d) && BlocksSafe(bs, k + 1, d.Minus(BlockWrites(bs[k]))))
    }

    /** What is clean when a function or a plan begins. */
    function Entry(own: seq<int>): Locals {
      if Undefined() then Only(docs + set i | 0 <= i < |own| :: own[i])
      else AllBut({INPUT, DATA} - docs - set i | 0 <= i < |own| :: own[i])
    }

    predicate FuncSafe(f: Func<nat>) {
      f.Func? && |f.params| >= 2 ==> BlocksSafe(f.blocks, 0, Entry(f.params[2..]))
    }

    predicate FuncsSafe() { forall i | 0 <= i < |funcs| :: FuncSafe(funcs[i]) }
  }

  /** The locals a statement assigns, with its blocks. */
  function DeepWrites(s: Stmt<nat>): set<int>
    decreases s, 1
  {
    Writes(s) + match s
                case BlockStmt(blocks) => BlocksWrites(blocks, 0)
                case Not(block) => BlockWrites(block)
                case Scan(_, _, _, block) => BlockWrites(block)
                case With(_, _, _, block) => BlockWrites(block)
                case _ => {}
  }

  function BlockWrites(b: Block<nat>): set<int>
    decreases b, 0
  {
    StmtsWrites(b.stmts, 0)
  }

  function StmtsWrites(ss: seq<Stmt<nat>>, k: nat): set<int>
    requires k <= |ss|
    decreases ss, 0, |ss| - k
  {
    if k == |ss| then {} else DeepWrites(ss[k]) + StmtsWrites(ss, k + 1)
  }

  function BlocksWrites(bs: seq<Block<nat>>, k: nat): set<int>
    requires k <= |bs|
    decreases bs, 0, |bs| - k
  {
    if k == |bs| then {} else BlockWrites(bs[k]) + BlocksWrites(bs, k + 1)
  }

  // ---- What the check promises of frames ----

  ghost predicate CleanFrame(ck: Check, d: Locals, fr: Frame) {
    forall l | d.Has(l) :: fr.Get(l) != ck.taboo
  }

  lemma OperandValue(ck: Check, o: Operand, d: Locals, fr: Frame)
    requires CleanFrame(ck, d, fr) && ck.OperandClean(o, d)
    ensures fr.Val(ck.ops, o) != ck.taboo
  {
  }

  ghost predicate Flows(ck: Check, s: Stmt<nat>, d: Locals, o: Outcome) {
    && ck.taboo !in o.trace.blanks
    && (o.Done? ==> CleanFrame(ck, d.Minus(DeepWrites(s)), o.frame))
    && (o.Done? && !o.stop ==> CleanFrame(ck, ck.Transfer(s, d), o.frame))
  }

  ghost predicate FlowsAll(ck: Check, writes: set<int>, d: Locals, o: Outcome) {
    ck.taboo !in o.trace.blanks && (o.Done? ==> CleanFrame(ck, d.Minus(writes), o.frame))
  }

  /** What a statement does not assign stays clean behind it. */
  lemma TransferKeeps(ck: Check, s: Stmt<nat>, d: Locals, l: int)
    requires d.Has(l) && l !in DeepWrites(s)
    ensures ck.Transfer(s, d).Has(l)
  {
    hide BlocksWrites, BlockWrites, Check.OperandClean, Check.Clean, Locals.Has, Locals.Mark, Locals.Plus, Locals.Minus;
    assert l !in Writes(s);
    OthersStay(d, l);
  }

  lemma OthersStay(d: Locals, l: int)
    requires d.Has(l)
    ensures forall t, clean | t != l :: d.Mark(t, clean).Has(l)
    ensures forall t :: d.Plus(t).Has(l)
    ensures forall m: set<int> | l !in m :: d.Minus(m).Has(l)
  {
  }

  lemma FlowsLater(ck: Check, s: Stmt<nat>, d: Locals, o: Outcome, writes: set<int>, next: Outcome)
    requires o.Done? && Flows(ck, s, d, o) && FlowsAll(ck, writes, ck.Transfer(s, d), next)
    ensures FlowsAll(ck, DeepWrites(s) + writes, d, After(o.trace, next))
  {
    hide Check.Transfer, DeepWrites;
    if next.Done? {
      forall l | d.Minus(DeepWrites(s) + writes).Has(l) ensures next.frame.Get(l) != ck.taboo {
        TransferKeeps(ck, s, d, l);
      }
    }
  }

  lemma FlowsOn(ck: Check, first: set<int>, d: Locals, o: Outcome, writes: set<int>, next: Outcome)
    requires o.Done? && FlowsAll(ck, first, d, o) && FlowsAll(ck, writes, d.Minus(first), next)
    ensures FlowsAll(ck, first + writes, d, After(o.trace, next))
  {
    if next.Done? {
      forall l | d.Minus(first + writes).Has(l) ensures next.frame.Get(l) != ck.taboo {
        assert d.Minus(first).Minus(writes).Has(l);
      }
    }
  }

  lemma FlowsSooner(ck: Check, first: set<int>, writes: set<int>, d: Locals, o: Outcome)
    requires FlowsAll(ck, first, d, o)
    ensures FlowsAll(ck, first + writes, d, o)
  {
    if o.Done? {
      forall l | d.Minus(first + writes).Has(l) ensures o.frame.Get(l) != ck.taboo {
        assert d.Minus(first).Has(l);
      }
    }
  }

  lemma FlowsThrough(ck: Check, d: Locals, fr: Frame, memo: Memo)
    requires CleanFrame(ck, d, fr)
    ensures FlowsAll(ck, {}, d, Through(fr, memo))
  {
  }

  lemma FlowsLeaves(ck: Check, writes: set<int>, d: Locals, o: Outcome)
    requires FlowsAll(ck, writes, d, o)
    ensures FlowsAll(ck, writes, d, LeaveBlock(o)) && FlowsAll(ck, writes, d, LeaveNot(o))
  {
  }

  // ---- Statements without blocks ----

  lemma FlatFlows(ck: Check, s: Stmt<nat>, d: Locals, fr: Frame, memo: Memo)
    requires !s.BlockStmt? && !s.Not? && !s.Scan? && !s.With? && !s.Call? && CleanFrame(ck, d, fr)
    ensures Flows(ck, s, d, Lifted(Step(ck.ops, s, fr), memo))
  {
    hide Step, Check.Transfer, Writes, DeepWrites, Frame.Get, Locals.Has;
    MinusHas(d, Writes(s));
    FlatWrites(s);
    var e := Step(ck.ops, s, fr);
    if e.Good? {
      forall l | d.Has(l) && l !in Writes(s) ensures e.frame.Get(l) != ck.taboo {
        UnwrittenStays(ck.ops, s, fr, l);
      }
      forall l | !e.stop && ck.Transfer(s, d).Has(l) ensures e.frame.Get(l) != ck.taboo {
        FlatIsClean(ck, s, d, fr, l);
      }
    }
  }

  lemma MinusHas(d: Locals, m: set<int>)
    ensures forall l :: d.Minus(m).Has(l) <==> d.Has(l) && l !in m
  {
  }

  lemma FlatWrites(s: Stmt<nat>)
    requires !s.BlockStmt? && !s.Not? && !s.Scan? && !s.With?
    ensures DeepWrites(s) == Writes(s)
  {
    hide Writes;
    assert Writes(s) + {} == Writes(s);
  }

  lemma FlatIsClean(ck: Check, s: Stmt<nat>, d: Locals, fr: Frame, l: int)
    requires !s.BlockStmt? && !s.Not? && !s.Scan? && !s.With? && !s.Call? && CleanFrame(ck, d, fr) && ck.Transfer(s, d).Has(l)
    requires var e := Step(ck.ops, s, fr); e.Good? && !e.stop
    ensures Step(ck.ops, s, fr).frame.Get(l) != ck.taboo
  {
    hide Step, Check.Transfer, Writes, CleanFrame;
    if l in Writes(s) {
      WrittenIsClean(ck, s, d, fr, l);
    } else {
      UnwrittenStays(ck.ops, s, fr, l);
      UnwrittenIsClean(ck, s, d, fr, l);
    }
  }

  lemma UnwrittenStays(ops: Ops, s: Stmt<nat>, fr: Frame, l: int)
    requires l !in Writes(s)
    ensures var e := Step(ops, s, fr); e.Good? ==> e.frame.Get(l) == fr.Get(l)
  {
    hide Step;
    if s.ReturnLocal? {
      ReturnStays(ops, s, fr, l);
    } else {
      StepKeeps(l, ops, s, fr);
    }
  }

  lemma ReturnStays(ops: Ops, s: Stmt<nat>, fr: Frame, l: int)
    requires s.ReturnLocal?
    ensures var e := Step(ops, s, fr); e.Good? ==> e.frame.Get(l) == fr.Get(l)
  {
  }

  /** A local that is clean behind a statement that does not assign it was clean before,
      or the statement has tested it. */
  lemma UnwrittenIsClean(ck: Check, s: Stmt<nat>, d: Locals, fr: Frame, l: int)
    requires !s.BlockStmt? && !s.Not? && !s.Scan? && !s.With? && !s.Call? && CleanFrame(ck, d, fr)
    requires l !in Writes(s) && ck.Transfer(s, d).Has(l)
    requires var e := Step(ck.ops, s, fr); e.Good? && !e.stop
    ensures fr.Get(l) != ck.taboo
  {
    hide DotStep, InsertStep, InsertOnce, MergeStep, AssignOnce, EqualStep, Assign, AssignDefined, Inverted;
    hide Check.OperandClean, Check.Clean;
    if !d.Has(l) {
      assert s.IsDefined? || s.IsUndefined? || s.IsArray? || s.IsObject? || s.IsSet?;
    }
  }

  /** A target that is clean behind the statement has been given a clean value, or had one
      and has kept or replaced it. */
  lemma WrittenIsClean(ck: Check, s: Stmt<nat>, d: Locals, fr: Frame, l: int)
    requires !s.BlockStmt? && !s.Not? && !s.Scan? && !s.With? && !s.Call? && CleanFrame(ck, d, fr)
    requires l in Writes(s) && ck.Transfer(s, d).Has(l)
    requires var e := Step(ck.ops, s, fr); e.Good? && !e.stop
    ensures Step(ck.ops, s, fr).frame.Get(l) != ck.taboo
  {
    hide DotStep, InsertStep, InsertOnce, MergeStep, AssignOnce, EqualStep, TypeStep, Inverted, Assign, AssignDefined;
    if s.AssignVarOnce? {
      OnceIsClean(ck, s.source, s.target, d, fr);
    } else if s.Dot? {
      DotIsDefined(ck.ops, s.source, s.key, s.target, fr);
    } else if s.Len? || s.SetAdd? {
      DefinedIsDefined(fr, s.target, if s.Len? then ck.ops.len(fr.Val(ck.ops, s.source))
                                     else ck.ops.setAdd(fr.Get(s.target), fr.Val(ck.ops, s.item)));
    } else if s.ArrayAppend? {
      StaysDefined(ck, s, d, fr);
      AppendIsDefined(fr, s.target, ck.ops.append(fr.Get(s.target), fr.Val(ck.ops, s.item)));
    } else if s.ObjectInsert? || s.ObjectInsertOnce? {
      StaysDefined(ck, s, d, fr);
      InsertIsDefined(ck.ops, fr.Val(ck.ops, s.key), fr.Val(ck.ops, s.item), s.target, fr);
    } else if !s.ObjectMerge? {
      MadeIsClean(ck, s, d, fr, l);
    }
  }

  lemma StaysDefined(ck: Check, s: Stmt<nat>, d: Locals, fr: Frame)
    requires CleanFrame(ck, d, fr) && (s.ArrayAppend? || s.ObjectInsert? || s.ObjectInsertOnce?) && ck.Transfer(s, d).Has(s.target)
    ensures ck.Undefined() && fr.Get(s.target).Some?
  {
  }

  /** Statements that assign a value of their own or an operand's. */
  lemma MadeIsClean(ck: Check, s: Stmt<nat>, d: Locals, fr: Frame, l: int)
    requires !s.BlockStmt? && !s.Not? && !s.Scan? && !s.With? && !s.Call? && CleanFrame(ck, d, fr)
    requires !s.AssignVarOnce? && !s.Dot? && !s.Len? && !s.SetAdd? && !s.ArrayAppend? && !s.ObjectInsert? && !s.ObjectInsertOnce?
    requires !s.ObjectMerge? && l in Writes(s) && ck.Transfer(s, d).Has(l)
    requires var e := Step(ck.ops, s, fr); e.Good? && !e.stop
    ensures Step(ck.ops, s, fr).frame.Get(l) != ck.taboo
  {
    hide DotStep, InsertStep, InsertOnce, MergeStep, AssignOnce, EqualStep, TypeStep, Inverted, Assign, AssignDefined;
    if s.AssignVar? {
      OperandValue(ck, s.source, d, fr);
    }
  }

  lemma OnceIsClean(ck: Check, source: Operand, target: int, d: Locals, fr: Frame)
    requires CleanFrame(ck, d, fr) && ck.Transfer(AssignVarOnce(source, target), d).Has(target)
    ensures var e := AssignOnce(ck.ops, fr.Val(ck.ops, source), target, fr); e.Good? && !e.stop ==> e.frame.Get(target) != ck.taboo
  {
    if ck.OperandClean(source, d) {
      OperandValue(ck, source, d, fr);
    }
  }

  lemma DotIsDefined(ops: Ops, source: Operand, key: Operand, target: int, fr: Frame)
    ensures var e := DotStep(ops, source, key, target, fr); e.Good? && !e.stop ==> e.frame.Get(target).Some?
  {
    hide DataGet;
  }

  lemma DefinedIsDefined(fr: Frame, target: int, r: Res<Value>)
    ensures var e := AssignDefined(fr, target, r); e.Good? ==> e.frame.Get(target).Some?
  {
  }

  lemma AppendIsDefined(fr: Frame, target: int, r: Res<Maybe>)
    requires fr.Get(target).Some?
    ensures var e := Assign(fr, target, r); e.Good? ==> e.frame.Get(target).Some?
  {
  }

  lemma InsertIsDefined(ops: Ops, key: Maybe, item: Maybe, target: int, fr: Frame)
    requires fr.Get(target).Some?
    ensures var e := InsertStep(ops, key, item, target, fr); e.Good? ==> e.frame.Get(target).Some?
    ensures var e := InsertOnce(ops, key, item, target, fr); e.Good? ==> e.frame.Get(target).Some?
  {
  }

  // ---- Statements with blocks ----

  /** The check is about this policy, and its functions pass it. */
  ghost predicate Checked(env: Env, ck: Check) {
    && Planned(env) && !env.memoize && ck.ops == env.ops && ck.funcs == env.funcs && Blankish(ck.taboo) && ck.FuncsSafe()
    && ck.docs <= {INPUT, DATA}
  }

  lemma CheckedIsValid(env: Env, ck: Check)
    requires Checked(env, ck)
    ensures env.Valid() && Planned(env) && !env.memoize && ck.ops == env.ops && ck.funcs == env.funcs && Blankish(ck.taboo)
    ensures forall i | 0 <= i < |env.funcs| :: FuncTame(env.funcs, env.funcs[i]) && ck.FuncSafe(env.funcs[i])
  {
  }

  lemma {:induction false} EvalFlows(env: Env, ck: Check, n: nat, s: Stmt<nat>, d: Locals, fr: Frame, memo: Memo)
    requires Checked(env, ck) && env.Valid() && n <= |env.funcs| && CallsBelow(s, n) && (Tame(env.funcs, s) || s.ReturnLocal?)
    requires ck.Safe(s, d) && CleanFrame(ck, d, fr)
    ensures Flows(ck, s, d, Eval(env, n, s, fr, memo))
    decreases 2 * n, s, 1, 0
  {
    hide *;
    CheckedIsValid(env, ck);
    EvalParts(env, n, s, fr, memo);
    if Tame(env.funcs, s) {
      TameParts(env.funcs, s);
    }
    if s.BlockStmt? {
      SafeBlockStmt(ck, s, d);
      BlockStmtFlows(env, ck, n, s.blocks, 0, d, fr, memo);
      NestedFlows(ck, s, d, BlocksWrites(s.blocks, 0), Eval(env, n, s, fr, memo));
    } else if s.Not? {
      SafeNot(ck, s, d);
      TailTameBlock(env.funcs, s.block);
      StmtsFlow(env, ck, n, s.block.stmts, 0, d, fr, memo);
      FlowsLeaves(ck, BlockWrites(s.block), d, EvalStmts(env, n, s.block.stmts, 0, fr, memo));
      NestedFlows(ck, s, d, BlockWrites(s.block), Eval(env, n, s, fr, memo));
    } else if s.Scan? {
      ScanFlows(env, ck, n, s, d, fr, memo);
    } else if s.With? {
      WithFlows(env, ck, n, s, d, fr, memo);
    } else if s.Call? {
      CallFlows(env, ck, n, s, d, fr, memo);
    } else {
      FlatEvalFlows(env, ck, n, s, d, fr, memo);
    }
  }

  lemma FlatEvalFlows(env: Env, ck: Check, n: nat, s: Stmt<nat>, d: Locals, fr: Frame, memo: Memo)
    requires env.Valid() && n <= |env.funcs| && CallsBelow(s, n) && ck.ops == env.ops && CleanFrame(ck, d, fr)
    requires !s.BlockStmt? && !s.Not? && !s.Scan? && !s.With? && !s.Call?
    ensures Flows(ck, s, d, Eval(env, n, s, fr, memo))
  {
    hide Eval, Flows, CleanFrame, Step;
    EvalParts(env, n, s, fr, memo);
    FlatFlows(ck, s, d, fr, memo);
  }

  lemma SafeBlockStmt(ck: Check, s: Stmt<nat>, d: Locals)
    requires s.BlockStmt? && ck.Safe(s, d)
    ensures ck.BlocksSafe(s.blocks, 0, d)
  {
  }

  lemma SafeNot(ck: Check, s: Stmt<nat>, d: Locals)
    requires s.Not? && ck.Safe(s, d)
    ensures ck.StmtsSafe(s.block.stmts, 0, d) && BlockWrites(s.block) == StmtsWrites(s.block.stmts, 0)
  {
  }

  /** Behind a statement with blocks, what its blocks do not assign is still clean. */
  lemma NestedFlows(ck: Check, s: Stmt<nat>, d: Locals, writes: set<int>, o: Outcome)
    requires (s.BlockStmt? && writes == BlocksWrites(s.blocks, 0)) || ((s.Not? || s.With?) && writes == BlockWrites(s.block))
    requires FlowsAll(ck, writes, d, o)
    ensures Flows(ck, s, d, o)
  {
    hide BlocksWrites, BlockWrites;
    assert DeepWrites(s) == {} + writes == writes;
  }

  lemma {:induction false} ScanFlows(env: Env, ck: Check, n: nat, s: Stmt<nat>, d: Locals, fr: Frame, memo: Memo)
    requires Checked(env, ck) && env.Valid() && n <= |env.funcs| && CallsBelow(s, n) && s.Scan? && Tame(env.funcs, s)
    requires ck.Safe(s, d) && CleanFrame(ck, d, fr)
    ensures Flows(ck, s, d, Eval(env, n, s, fr, memo))
    decreases 2 * n, s, 0, 0
  {
    hide Eval, EvalScan, CallsBelow, Tame, Checked, Check.Safe, Check.StmtsSafe, FuncCallsBelow, LeaveBlock, FlowsAll;
    hide BlockWrites, BlockTame, FlatTame;
    ScanLocals(env.funcs, s);
    EvalScanParts(env, n, s, fr, memo);
    CheckedIsValid(env, ck);
    var r, writes := env.ops.iter(fr.Get(s.local)), {s.keyLocal, s.valueLocal} + BlockWrites(s.block);
    assert DeepWrites(s) == writes;
    if r.Ok? {
      SafeScan(ck, s, d);
      ElementsFlow(env, ck, n, s.keyLocal, s.valueLocal, s.block, r.v, 0, d.Minus(writes), fr, memo);
      var o := EvalScan(env, n, s.keyLocal, s.valueLocal, s.block, r.v, 0, fr, memo);
      FlowsLeaves(ck, {}, d.Minus(writes), o);
      LeftClean(ck, writes, d, LeaveBlock(o));
    }
  }

  lemma SafeScan(ck: Check, s: Stmt<nat>, d: Locals)
    requires s.Scan? && ck.Safe(s, d)
    ensures ck.StmtsSafe(s.block.stmts, 0, ck.ScanEntry(d.Minus({s.keyLocal, s.valueLocal} + BlockWrites(s.block)), s.keyLocal, s.valueLocal))
  {
  }

  lemma LeftClean(ck: Check, writes: set<int>, d: Locals, o: Outcome)
    requires FlowsAll(ck, {}, d.Minus(writes), o)
    ensures FlowsAll(ck, writes, d, o)
    ensures o.Done? ==> CleanFrame(ck, d.Minus(writes), o.frame)
    ensures ck.taboo !in o.trace.blanks
  {
    assert forall l | d.Minus(writes).Has(l) :: d.Minus(writes).Minus({}).Has(l);
  }

  lemma {:induction false} ElementsFlow(env: Env, ck: Check, n: nat, keyLocal: int, valueLocal: int, b: Block<nat>,
                                        elems: seq<(Value, Value)>, k: nat, d: Locals, fr: Frame, memo: Memo)
    requires Checked(env, ck) && env.Valid() && n <= |env.funcs| && BlockCallsBelow(b, n) && BlockTame(env.funcs, b) && k <= |elems|
    requires !d.Has(keyLocal) && !d.Has(valueLocal) && forall l | l in BlockWrites(b) :: !d.Has(l)
    requires ck.StmtsSafe(b.stmts, 0, ck.ScanEntry(d, keyLocal, valueLocal)) && CleanFrame(ck, d, fr)
    ensures FlowsAll(ck, {}, d, EvalScan(env, n, keyLocal, valueLocal, b, elems, k, fr, memo))
    decreases 2 * n, b, 1, |elems| - k
  {
    hide EvalBlock, EvalScan, BlockCallsBelow, BlockTame, Checked, Check.StmtsSafe, FuncCallsBelow, ScanFrame, BlockWrites, After;
    EvalScanStep(env, n, keyLocal, valueLocal, b, elems, k, fr, memo);
    if k == |elems| {
      FlowsThrough(ck, d, fr, memo);
    } else {
      var fr', d' := ScanFrame(fr, keyLocal, valueLocal, elems[k]), ck.ScanEntry(d, keyLocal, valueLocal);
      ScanEntryClean(ck, d, fr, keyLocal, valueLocal, elems[k]);
      TailTameBlock(env.funcs, b);
      BlockFlows(env, ck, n, b, d', fr', memo);
      var o := EvalBlock(env, n, b, fr', memo);
      ElementClean(ck, d, keyLocal, valueLocal, BlockWrites(b), o);
      if o.Done? && !o.stop {
        ElementsFlow(env, ck, n, keyLocal, valueLocal, b, elems, k + 1, d, o.frame, o.memo);
        var next := EvalScan(env, n, keyLocal, valueLocal, b, elems, k + 1, o.frame, o.memo);
        SameLocals(ck, d, next);
        FlowsOn(ck, {}, d, o, {}, next);
      }
    }
  }

  lemma SameLocals(ck: Check, d: Locals, o: Outcome)
    ensures FlowsAll(ck, {}, d, o) ==> FlowsAll(ck, {}, d.Minus({}), o)
  {
  }

  lemma ScanEntryClean(ck: Check, d: Locals, fr: Frame, keyLocal: int, valueLocal: int, elem: (Value, Value))
    requires CleanFrame(ck, d, fr) && !d.Has(keyLocal) && !d.Has(valueLocal)
    ensures CleanFrame(ck, ck.ScanEntry(d, keyLocal, valueLocal), ScanFrame(fr, keyLocal, valueLocal, elem))
  {
    var fr' := ScanFrame(fr, keyLocal, valueLocal, elem);
    forall l | ck.ScanEntry(d, keyLocal, valueLocal).Has(l) ensures fr'.Get(l) != ck.taboo {
      assert d.Has(l) || l == keyLocal || l == valueLocal;
    }
  }

  /** What was clean before a scan is not assigned in it, and so is clean after an element. */
  lemma ElementClean(ck: Check, d: Locals, keyLocal: int, valueLocal: int, writes: set<int>, o: Outcome)
    requires FlowsAll(ck, writes, ck.ScanEntry(d, keyLocal, valueLocal), o) && forall l | l in writes :: !d.Has(l)
    ensures FlowsAll(ck, {}, d, o) && (o.Done? ==> CleanFrame(ck, d, o.frame))
  {
    if o.Done? {
      forall l | d.Has(l) ensures o.frame.Get(l) != ck.taboo {
        assert ck.ScanEntry(d, keyLocal, valueLocal).Minus(writes).Has(l);
      }
    }
  }

  lemma {:induction false} WithFlows(env: Env, ck: Check, n: nat, s: Stmt<nat>, d: Locals, fr: Frame, memo: Memo)
    requires Checked(env, ck) && env.Valid() && n <= |env.funcs| && CallsBelow(s, n) && s.With? && Tame(env.funcs, s)
    requires ck.Safe(s, d) && CleanFrame(ck, d, fr)
    ensures Flows(ck, s, d, Eval(env, n, s, fr, memo))
    decreases 2 * n, s, 0, 0
  {
    hide Eval, EvalStmts, CallsBelow, Tame, Checked, Check.Safe, Check.StmtsSafe, FuncCallsBelow, LeaveWith, FlowsAll, Upsert;
    hide BlockTame, TailTame, CleanFrame, Flows;
    TameParts(env.funcs, s);
    TailTameBlock(env.funcs, s.block);
    EvalWithParts(env, n, s, fr, memo);
    CheckedIsValid(env, ck);
    var r := Upsert(env.ops, fr.Get(s.local), s.segments, fr.Val(env.ops, s.item));
    if r.Ok? {
      SafeWith(ck, s, d);
      WithEntryClean(ck, s, d, fr, r.v);
      var d' := ck.WithEntry(s.local, s.segments, s.item, d);
      StmtsFlow(env, ck, n, s.block.stmts, 0, d', fr.Set(s.local, r.v), map[]);
      var o := EvalStmts(env, n, s.block.stmts, 0, fr.Set(s.local, r.v), map[]);
      WithLeftClean(ck, s, d, fr, memo, o);
    } else {
      FailsClean(ck, s, d, r.error);
    }
  }

  lemma FailsClean(ck: Check, s: Stmt<nat>, d: Locals, e: Error)
    ensures Flows(ck, s, d, Fails(e))
  {
  }

  lemma SafeWith(ck: Check, s: Stmt<nat>, d: Locals)
    requires s.With? && ck.Safe(s, d)
    ensures ck.StmtsSafe(s.block.stmts, 0, ck.WithEntry(s.local, s.segments, s.item, d))
  {
  }

  lemma WithEntryClean(ck: Check, s: Stmt<nat>, d: Locals, fr: Frame, v: Maybe)
    requires s.With? && CleanFrame(ck, d, fr) && Upsert(ck.ops, fr.Get(s.local), s.segments, fr.Val(ck.ops, s.item)) == Ok(v)
    ensures CleanFrame(ck, ck.WithEntry(s.local, s.segments, s.item, d), fr.Set(s.local, v))
  {
    hide Insert;
    if s.segments == [] && ck.OperandClean(s.item, d) {
      OperandValue(ck, s.item, d, fr);
    }
    forall l | ck.WithEntry(s.local, s.segments, s.item, d).Has(l) ensures fr.Set(s.local, v).Get(l) != ck.taboo {
      assert d.Has(l) || l == s.local;
    }
  }

  /** The replaced local is as clean as it was. */
  lemma WithLeftClean(ck: Check, s: Stmt<nat>, d: Locals, fr: Frame, memo: Memo, o: Outcome)
    requires s.With? && CleanFrame(ck, d, fr)
    requires FlowsAll(ck, StmtsWrites(s.block.stmts, 0), ck.WithEntry(s.local, s.segments, s.item, d), o)
    ensures Flows(ck, s, d, LeaveWith(o, s.local, fr.Get(s.local), memo))
  {
    hide StmtsWrites;
    var w, o' := StmtsWrites(s.block.stmts, 0), LeaveWith(o, s.local, fr.Get(s.local), memo);
    assert DeepWrites(s) == {} + w == w;
    if o.Done? {
      forall l | d.Minus(w).Has(l) ensures o'.frame.Get(l) != ck.taboo {
        if l != s.local {
          assert ck.WithEntry(s.local, s.segments, s.item, d).Minus(w).Has(l);
        }
      }
    }
  }

  // ---- Sequences ----

  lemma {:induction false} StmtsFlow(env: Env, ck: Check, n: nat, ss: seq<Stmt<nat>>, k: nat, d: Locals, fr: Frame, memo: Memo)
    requires Checked(env, ck) && env.Valid() && n <= |env.funcs| && k <= |ss| && (forall i | 0 <= i < |ss| :: CallsBelow(ss[i], n))
    requires TailTame(env.funcs, ss) && ck.StmtsSafe(ss, k, d) && CleanFrame(ck, d, fr)
    ensures FlowsAll(ck, StmtsWrites(ss, k), d, EvalStmts(env, n, ss, k, fr, memo))
    decreases 2 * n, ss, 0, |ss| - k
  {
    hide Eval, EvalStmts, CallsBelow, Tame, Checked, Check.Safe, Check.Transfer, FuncCallsBelow, After, DeepWrites;
    EvalStmtsStep(env, n, ss, k, fr, memo);
    if k == |ss| {
      FlowsThrough(ck, d, fr, memo);
    } else {
      EvalFlows(env, ck, n, ss[k], d, fr, memo);
      var o := Eval(env, n, ss[k], fr, memo);
      if o.Done? && !o.stop {
        StmtsFlow(env, ck, n, ss, k + 1, ck.Transfer(ss[k], d), o.frame, o.memo);
        FlowsLater(ck, ss[k], d, o, StmtsWrites(ss, k + 1), EvalStmts(env, n, ss, k + 1, o.frame, o.memo));
      } else {
        FlowsSooner(ck, DeepWrites(ss[k]), StmtsWrites(ss, k + 1), d, o);
      }
    }
  }

  lemma {:induction false} BlockFlows(env: Env, ck: Check, n: nat, b: Block<nat>, d: Locals, fr: Frame, memo: Memo)
    requires Checked(env, ck) && env.Valid() && n <= |env.funcs| && BlockCallsBelow(b, n) && TailTame(env.funcs, b.stmts)
    requires ck.StmtsSafe(b.stmts, 0, d) && CleanFrame(ck, d, fr)
    ensures FlowsAll(ck, BlockWrites(b), d, EvalBlock(env, n, b, fr, memo))
    decreases 2 * n, b, 0, 0
  {
    EvalBlockParts(env, n, b, fr, memo);
    StmtsFlow(env, ck, n, b.stmts, 0, d, fr, memo);
    hide EvalStmts, EvalBlock, Dispatched, TailTame, Checked, Check.StmtsSafe, FuncCallsBelow, LeaveBlock;
    FlowsLeaves(ck, BlockWrites(b), d, After(Ticks(Dispatched(env, n, b.stmts, 0, fr, memo)), EvalStmts(env, n, b.stmts, 0, fr, memo)));
  }

  lemma {:induction false} BlockStmtFlows(env: Env, ck: Check, n: nat, bs: seq<Block<nat>>, k: nat, d: Locals, fr: Frame, memo: Memo)
    requires Checked(env, ck) && env.Valid() && n <= |env.funcs| && k <= |bs| && (forall i | 0 <= i < |bs| :: BlockCallsBelow(bs[i], n))
    requires (forall i | 0 <= i < |bs| :: BlockTame(env.funcs, bs[i])) && ck.BlocksSafe(bs, k, d) && CleanFrame(ck, d, fr)
    ensures FlowsAll(ck, BlocksWrites(bs, k), d, EvalBlockStmt(env, n, bs, k, fr, memo))
    decreases 2 * n, bs, 0, |bs| - k
  {
    hide EvalBlock, EvalBlockStmt, BlockCallsBelow, BlockTame, TailTame, Checked, Check.StmtsSafe, FuncCallsBelow, After, BlockWrites;
    EvalBlockStmtStep(env, n, bs, k, fr, memo);
    if k == |bs| {
      FlowsThrough(ck, d, fr, memo);
    } else {
      TailTameBlock(env.funcs, bs[k]);
      BlockFlows(env, ck, n, bs[k], d, fr, memo);
      var o := EvalBlock(env, n, bs[k], fr, memo);
      if o.Done? && !o.stop {
        BlockStmtFlows(env, ck, n, bs, k + 1, d.Minus(BlockWrites(bs[k])), o.frame, o.memo);
        FlowsOn(ck, BlockWrites(bs[k]), d, o, BlocksWrites(bs, k + 1), EvalBlockStmt(env, n, bs, k + 1, o.frame, o.memo));
      } else {
        FlowsSooner(ck, BlockWrites(bs[k]), BlocksWrites(bs, k + 1), d, o);
      }
    }
  }

  lemma {:induction false} BlocksFlow(env: Env, ck: Check, n: nat, bs: seq<Block<nat>>, k: nat, d: Locals, fr: Frame, memo: Memo)
    requires Checked(env, ck) && env.Valid() && n <= |env.funcs| && k <= |bs| && (forall i | 0 <= i < |bs| :: BlockCallsBelow(bs[i], n))
    requires BlocksTame(env.funcs, bs) && ck.BlocksSafe(bs, k, d) && CleanFrame(ck, d, fr)
    ensures FlowsAll(ck, BlocksWrites(bs, k), d, EvalBlocks(env, n, bs, k, fr, memo))
    decreases 2 * n, bs, 0, |bs| - k
  {
    hide EvalBlock, EvalBlocks, BlockCallsBelow, BlocksTame, TailTame, Checked, Check.StmtsSafe, FuncCallsBelow, After, BlockWrites;
    EvalBlocksStep(env, n, bs, k, fr, memo);
    if k == |bs| {
      FlowsThrough(ck, d, fr, memo);
    } else {
      TailOfBlocks(env.funcs, bs, k);
      BlockFlows(env, ck, n, bs[k], d, fr, memo);
      var o := EvalBlock(env, n, bs[k], fr, memo);
      if o.Done? {
        BlocksFlow(env, ck, n, bs, k + 1, d.Minus(BlockWrites(bs[k])), o.frame, o.memo);
        FlowsOn(ck, BlockWrites(bs[k]), d, o, BlocksWrites(bs, k + 1), EvalBlocks(env, n, bs, k + 1, o.frame, o.memo));
      } else {
        FlowsSooner(ck, BlockWrites(bs[k]), BlocksWrites(bs, k + 1), d, o);
      }
    }
  }

  lemma TailOfBlocks(funcs: seq<Func<nat>>, bs: seq<Block<nat>>, k: nat)
    requires BlocksTame(funcs, bs) && k < |bs|
    ensures TailTame(funcs, bs[k].stmts)
  {
    hide BlockTame, TailTame;
    if k < |bs| - 1 {
      TailTameBlock(funcs, bs[k]);
    }
  }

  // ---- Calls ----

  lemma {:induction false} CallFlows(env: Env, ck: Check, n: nat, s: Stmt<nat>, d: Locals, fr: Frame, memo: Memo)
    requires Checked(env, ck) && env.Valid() && n <= |env.funcs| && CallsBelow(s, n) && s.Call? && Tame(env.funcs, s)
    requires ck.Safe(s, d) && CleanFrame(ck, d, fr)
    ensures Flows(ck, s, d, Eval(env, n, s, fr, memo))
    decreases 2 * n, s, 0, 0
  {
    hide Eval, EvalFunc, CallsBelow, Tame, Checked, FuncCallsBelow, CallStep, FuncTame, FlatTame, Check.FuncSafe;
    CheckedIsValid(env, ck);
    EvalParts(env, n, s, fr, memo);
    var args := fr.Vals(env.ops, s.args);
    var r := EvalFunc(env, s.func, args, memo);
    if env.funcs[s.func].Builtin? {
      BuiltinCall(env, s.func, args, memo);
    } else {
      forall j | 0 <= j < |args| && (2 <= j || j in ck.docs) ensures args[j] != ck.taboo {
        OperandValue(ck, s.args[j], d, fr);
      }
      FuncFlows(env, ck, s.func, args, memo);
    }
    StepClean(ck, s, d, r, fr);
  }

  /** A call that returns, returns a defined value. */
  ghost predicate CallClean(ck: Check, r: Result) {
    ck.taboo !in r.trace.blanks && (r.Returned? && r.has ==> r.value.Some?)
  }

  lemma StepClean(ck: Check, s: Stmt<nat>, d: Locals, r: Result, fr: Frame)
    requires s.Call? && CallClean(ck, r) && CleanFrame(ck, d, fr)
    ensures Flows(ck, s, d, CallStep(r, s.result, fr))
  {
    var o := CallStep(r, s.result, fr);
    assert DeepWrites(s) == {s.result};
    if o.Done? {
      forall l | d.Minus({s.result}).Has(l) ensures o.frame.Get(l) != ck.taboo {
        assert d.Has(l);
      }
      forall l | ck.Transfer(s, d).Has(l) && !o.stop ensures o.frame.Get(l) != ck.taboo {
        assert l != s.result ==> d.Has(l);
      }
    }
  }

  lemma {:induction false} FuncFlows(env: Env, ck: Check, i: nat, args: seq<Maybe>, memo: Memo)
    requires Checked(env, ck) && env.Valid() && i < |env.funcs| && env.funcs[i].Func?
    requires forall j | 0 <= j < |args| && (2 <= j || j in ck.docs) :: args[j] != ck.taboo
    ensures CallClean(ck, EvalFunc(env, i, args, memo))
    decreases 2 * i + 1, 1
  {
    hide EvalFunc, RunFunc, Checked, FuncCallsBelow, KeyOf, Hashable, Blanks, FuncTame, Check.FuncSafe;
    CheckedIsValid(env, ck);
    FuncCall(env, i, args, memo);
    var np := |env.funcs[i].params|;
    if 2 <= np <= |args| {
      var own := args[2..np];
      BlanksClean(ck, args, np);
      RunFlows(env, ck, i, args, memo);
    }
  }

  lemma BlanksClean(ck: Check, args: seq<Maybe>, np: nat)
    requires 2 <= np <= |args| && forall j | 2 <= j < |args| :: args[j] != ck.taboo
    ensures ck.taboo !in Blanks(args[2..np])
  {
    assert forall v | v in args[2..np] :: v != ck.taboo;
  }

  lemma {:induction false} RunFlows(env: Env, ck: Check, i: nat, args: seq<Maybe>, memo: Memo)
    requires Checked(env, ck) && env.Valid() && i < |env.funcs| && env.funcs[i].Func?
    requires |args| >= |env.funcs[i].params| >= 2
    requires forall j | 0 <= j < |args| && (2 <= j || j in ck.docs) :: args[j] != ck.taboo
    ensures CallClean(ck, RunFunc(env, i, args, memo))
    decreases 2 * i + 1, 0
  {
    hide EvalBlocks, RunFunc, Checked, FuncCallsBelow, BlocksTame, BlockCallsBelow, Check.BlocksSafe;
    CheckedIsValid(env, ck);
    var f := env.funcs[i];
    assert FuncTame(env.funcs, f) && ck.FuncSafe(f);
    ReturnIsDefined(env, i, args, memo);
    RunParts(env, i, args, memo);
    EnterClean(env, ck, f.params, args);
    var d := ck.Entry(f.params[2..]);
    BlocksFlow(env, ck, i, f.blocks, 0, d, env.Enter(f.params, args, |f.params|), memo);
  }

  /** A function's frame is clean where the check expects it. */
  lemma EnterClean(env: Env, ck: Check, params: seq<int>, args: seq<Maybe>)
    requires Checked(env, ck) && 2 <= |params| <= |args| && params[0] == INPUT && params[1] == DATA
    requires forall k | 2 <= k < |params| :: params[k] != INPUT && params[k] != DATA
    requires forall j | 0 <= j < |args| && (2 <= j || j in ck.docs) :: args[j] != ck.taboo
    ensures CleanFrame(ck, ck.Entry(params[2..]), env.Enter(params, args, |params|))
  {
    forall l | ck.Entry(params[2..]).Has(l) ensures env.Enter(params, args, |params|).Get(l) != ck.taboo {
      EnterCleanAt(env, ck, params, args, |params|, l);
    }
  }

  lemma {:induction false} EnterCleanAt(env: Env, ck: Check, params: seq<int>, args: seq<Maybe>, n: nat, l: int)
    requires 2 <= n <= |params| <= |args| && params[0] == INPUT && params[1] == DATA && Blankish(ck.taboo)
    requires forall k | 2 <= k < |params| :: params[k] != INPUT && params[k] != DATA
    requires forall j | 0 <= j < |args| && (2 <= j || j in ck.docs) :: args[j] != ck.taboo
    requires (exists k :: 2 <= k < n && params[k] == l) || (l in ck.docs && (l == INPUT || l == DATA))
          || (!ck.Undefined() && l != INPUT && l != DATA)
    ensures env.Enter(params, args, n).Get(l) != ck.taboo
  {
    if n == 2 {
      assert env.Enter(params, args, 2) == env.Enter(params, args, 1).Set(DATA, args[1]);
      assert env.Enter(params, args, 1) == env.Enter(params, args, 0).Set(INPUT, args[0]);
    } else if params[n - 1] != l {
      EnterCleanAt(env, ck, params, args, n - 1, l);
    }
  }

  // ---- Plans ----

  /** A plan passes the check. */
  ghost predicate PlanSafe(env: Env, ck: Check, bs: seq<Block<nat>>) {
    && ck.BlocksSafe(bs, 0, ck.Entry([]))
    && (INPUT in ck.docs ==> env.input != ck.taboo) && (DATA in ck.docs ==> env.data != ck.taboo)
  }

  /** A policy that passes the check does not pass the value that was checked for. */
  lemma CheckIsSound(env: Env, ck: Check, bs: seq<Block<nat>>)
    requires Checked(env, ck) && BlocksTame(env.funcs, bs) && PlanSafe(env, ck, bs)
    requires env.Valid() && forall i | 0 <= i < |bs| :: BlockCallsBelow(bs[i], |env.funcs|)
    ensures ck.taboo !in PassedBlanks(env, bs)
  {
    hide EvalBlocks, FuncCallsBelow, BlocksTame, BlockCallsBelow, Check.BlocksSafe, FuncTame, Check.FuncSafe;
    BlocksFlow(env, ck, |env.funcs|, bs, 0, ck.Entry([]), env.Fresh(), map[]);
  }

  /** A policy that passes the check for one of the two values, whichever, has the same
      result with remembered calls. */
  lemma CheckedIsTransparent(env: Env, ck: Check, bs: seq<Block<nat>>)
    requires Checked(Plain(env), ck) && BlocksTame(env.funcs, bs) && PlanSafe(env, ck, bs)
    requires env.Valid() && forall i | 0 <= i < |bs| :: BlockCallsBelow(bs[i], |env.funcs|)
    ensures Plain(env).Valid() && PlanResult(env, bs) == PlanResult(Plain(env), bs)
  {
    hide PlanResult, PassedBlanks, FuncCallsBelow, BlocksTame, BlockCallsBelow, Check.BlocksSafe, FuncTame, Check.FuncSafe;
    assert Planned(env) by {
      assert Planned(Plain(env));
    }
    CheckIsSound(Plain(env), ck, bs);
    MemoizationIsTransparent(env, bs);
  }

  // ---- What is accepted ----

  /** There is no call in the statement or its blocks. */
  ghost predicate CallFree(s: Stmt<nat>)
    decreases s, 1
  {
    match s
    case Call(_, _, _) => false
    case BlockStmt(blocks) => forall i | 0 <= i < |blocks| :: BlockCallFree(blocks[i])
    case Not(block) => BlockCallFree(block)
    case Scan(_, _, _, block) => BlockCallFree(block)
    case With(_, _, _, block) => BlockCallFree(block)
    case _ => true
  }

  ghost predicate BlockCallFree(b: Block<nat>)
    decreases b, 0
  {
    forall i | 0 <= i < |b.stmts| :: CallFree(b.stmts[i])
  }

  /** Code without calls is accepted, whatever it computes. */
  lemma {:induction false} CallFreeIsSafe(ck: Check, s: Stmt<nat>, d: Locals)
    requires CallFree(s)
    ensures ck.Safe(s, d)
    decreases s, 1, 0
  {
    hide Check.StmtsSafe, Check.BlocksSafe, Check.CallSafe, Check.ScanEntry, Check.WithEntry, BlockWrites, BlockCallFree;
    match s
    case BlockStmt(blocks) => BlocksCallFree(ck, blocks, 0, d);
    case Not(block) => StmtsCallFree(ck, block, 0, d);
    case Scan(_, keyLocal, valueLocal, block) =>
      StmtsCallFree(ck, block, 0, ck.ScanEntry(d.Minus({keyLocal, valueLocal} + BlockWrites(block)), keyLocal, valueLocal));
    case With(local, segments, item, block) => StmtsCallFree(ck, block, 0, ck.WithEntry(local, segments, item, d));
    case _ =>
  }

  lemma {:induction false} StmtsCallFree(ck: Check, b: Block<nat>, k: nat, d: Locals)
    requires BlockCallFree(b) && k <= |b.stmts|
    ensures ck.StmtsSafe(b.stmts, k, d)
    decreases b, 0, |b.stmts| - k
  {
    hide Check.Safe;
    if k < |b.stmts| {
      CallFreeIsSafe(ck, b.stmts[k], d);
      StmtsCallFree(ck, b, k + 1, ck.Transfer(b.stmts[k], d));
    }
  }

  lemma {:induction false} BlocksCallFree(ck: Check, bs: seq<Block<nat>>, k: nat, d: Locals)
    requires k <= |bs| && forall i | 0 <= i < |bs| :: BlockCallFree(bs[i])
    ensures ck.BlocksSafe(bs, k, d)
    decreases bs, 0, |bs| - k
  {
    hide Check.StmtsSafe;
    if k < |bs| {
      StmtsCallFree(ck, bs[k], 0, d);
      BlocksCallFree(ck, bs, k + 1, d.Minus(BlockWrites(bs[k])));
    }
  }

  /** A call is accepted when its arguments are locals that are known to be clean: here one
      that has just been made, on every path. */
  lemma MadeArgumentIsAccepted(ck: Check, func: nat, d: Locals)
    requires ck.Clean(Some(ck.ops.nil)) && ck.docs == {INPUT, DATA} && d.Has(INPUT) && d.Has(DATA)
    ensures ck.StmtsSafe([MakeNull(2), Call(func, [Operand.Local(INPUT), Operand.Local(DATA), Operand.Local(2)], 3)], 0, d)
  {
    var call: Stmt<nat> := Call(func, [Operand.Local(INPUT), Operand.Local(DATA), Operand.Local(2)], 3);
    var ss := [MakeNull(2), call];
    var d' := ck.Transfer(ss[0], d);
    assert d'.Has(2) && d'.Has(INPUT) && d'.Has(DATA);
    assert ck.Safe(ss[1], d');
    assert ck.StmtsSafe(ss, 2, ck.Transfer(ss[1], d'));
    assert ck.StmtsSafe(ss, 1, d');
  }
}
