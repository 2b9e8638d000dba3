/** Where a break lands: a block is one level, a scan one more, a block statement none.
    A break that runs out in a scan's block goes on with the next element, one that runs
    out in `not` lets it succeed, and none gets past `with` but to stop the block
    around it. */
module Breaks {
  import opened ByteCodec
  import opened Ir
  import opened Evaluation
  import opened EvaluationSteps

  /** A statement with a block around it; the statement inside comes first. `after` and
      `more` are what a break skips and what it may not. */
  datatype Layer =
    | InBlock(after: seq<Stmt<nat>>, more: seq<Block<nat>>)
    | InNot(after: seq<Stmt<nat>>)
    | InScan(local: int, keyLocal: int, valueLocal: int, after: seq<Stmt<nat>>)
  {
    function Body(s: Stmt<nat>): Block<nat> { Block([s] + after) }

    function Around(s: Stmt<nat>): Stmt<nat> {
      match this
      case InBlock(_, more) => BlockStmt([Body(s)] + more)
      case InNot(_) => Not(Body(s))
      case InScan(local, keyLocal, valueLocal, _) => Scan(local, keyLocal, valueLocal, Body(s))
    }

    function Levels(): nat { if InScan? then 2 else 1 }

    /** The statement inside is reached. */
    predicate Opens(ops: Ops, fr: Frame) {
      InScan? ==> var r := ops.iter(fr.Get(local)); r.Ok? && r.v != []
    }

    /** The frame in which it is. */
    function Enter(ops: Ops, fr: Frame): Frame
      requires Opens(ops, fr)
    {
      if !InScan? then fr
      else
        var first := ops.iter(fr.Get(local)).v[0];
        fr.Set(keyLocal, Some(first.0)).Set(valueLocal, Some(first.1))
    }
  }

  // ---- Layers in each other, the outermost first ----

  function Nest(layers: seq<Layer>, s: Stmt<nat>): Stmt<nat> {
    if layers == [] then s else layers[0].Around(Nest(layers[1..], s))
  }

  function Levels(layers: seq<Layer>): nat {
    if layers == [] then 0 else layers[0].Levels() + Levels(layers[1..])
  }

  /** The layers whose blocks count their statements: one is dispatched in each. */
  function Counted(layers: seq<Layer>): nat {
    if layers == [] then 0 else (if layers[0].InNot? then 0 else 1) + Counted(layers[1..])
  }

  predicate Reached(ops: Ops, layers: seq<Layer>, fr: Frame) {
    layers == [] || (layers[0].Opens(ops, fr) && Reached(ops, layers[1..], layers[0].Enter(ops, fr)))
  }

  function Inside(ops: Ops, layers: seq<Layer>, fr: Frame): Frame
    requires Reached(ops, layers, fr)
  {
    if layers == [] then fr else Inside(ops, layers[1..], layers[0].Enter(ops, fr))
  }

  lemma BodyCalls(layer: Layer, s: Stmt<nat>, n: nat)
    requires CallsBelow(layer.Around(s), n)
    ensures BlockCallsBelow(layer.Body(s), n) && CallsBelow(s, n)
    ensures forall i | 0 <= i < |layer.Body(s).stmts| :: CallsBelow(layer.Body(s).stmts[i], n)
  {
    if layer.InBlock? {
      assert ([layer.Body(s)] + layer.more)[0] == layer.Body(s);
    }
    assert layer.Body(s).stmts[0] == s;
  }

  /** A stop of the statement inside is the stop of its block, one level less. */
  lemma BodyStops(env: Env, n: nat, layer: Layer, s: Stmt<nat>, fr: Frame, memo: Memo)
    requires env.Valid() && n <= |env.funcs| && CallsBelow(layer.Around(s), n) && CallsBelow(s, n)
    requires var o := Eval(env, n, s, fr, memo); o.Done? && o.stop
    ensures BlockCallsBelow(layer.Body(s), n)
    ensures EvalStmts(env, n, layer.Body(s).stmts, 0, fr, memo) == Eval(env, n, s, fr, memo)
    ensures EvalBlock(env, n, layer.Body(s), fr, memo) == LeaveBlock(Ticked(Eval(env, n, s, fr, memo)))
  {
    BodyCalls(layer, s, n);
    var ss := layer.Body(s).stmts;
    assert ss[0] == s;
    EvalStmtsStep(env, n, ss, 0, fr, memo);
    DispatchedStep(env, n, ss, 0, fr, memo);
    EvalBlockParts(env, n, layer.Body(s), fr, memo);
    hide Eval, EvalStmts, EvalBlock, Dispatched;
  }

  /** `o`, with one statement more dispatched. */
  function Ticked(o: Outcome): Outcome { After(Ticks(1), o) }

  lemma TickTicks(o: Outcome, d: nat)
    requires o.trace == Ticks(d)
    ensures Ticked(o).trace == Ticks(d + 1)
  {
  }

  /** What a layer makes of its block. */
  lemma LayerStops(env: Env, n: nat, layer: Layer, s: Stmt<nat>, fr: Frame, memo: Memo)
    requires env.Valid() && n <= |env.funcs| && CallsBelow(layer.Around(s), n) && BlockCallsBelow(layer.Body(s), n)
    requires layer.Opens(env.ops, fr) && !layer.InNot?
    requires var o := EvalBlock(env, n, layer.Body(s), layer.Enter(env.ops, fr), memo); o.Done? && o.stop
    ensures var o := EvalBlock(env, n, layer.Body(s), layer.Enter(env.ops, fr), memo);
            && (layer.InScan? ==> Eval(env, n, layer.Around(s), fr, memo) == LeaveBlock(o))
            && (layer.InBlock? ==> Eval(env, n, layer.Around(s), fr, memo) == o)
  {
    hide Eval, EvalStmts, EvalBlock, EvalBlockStmt, EvalScan, CallsBelow, BlockCallsBelow;
    var t := layer.Around(s);
    EvalParts(env, n, t, fr, memo);
    match layer {
      case InBlock(_, _) =>
        assert t.blocks[0] == layer.Body(s);
        EvalBlockStmtStep(env, n, t.blocks, 0, fr, memo);
      case InScan(local, keyLocal, valueLocal, _) =>
        EvalScanParts(env, n, t, fr, memo);
        EvalScanStep(env, n, keyLocal, valueLocal, t.block, env.ops.iter(fr.Get(local)).v, 0, fr, memo);
    }
  }

  /** A break with levels to spare leaves the layer. */
  lemma LayerPasses(env: Env, n: nat, layer: Layer, s: Stmt<nat>, fr: Frame, memo: Memo)
    requires env.Valid() && n <= |env.funcs| && CallsBelow(layer.Around(s), n) && CallsBelow(s, n)
    requires layer.Opens(env.ops, fr)
    requires var o := Eval(env, n, s, layer.Enter(env.ops, fr), memo); o.Done? && o.stop && o.index >= layer.Levels()
    ensures var o := Eval(env, n, s, layer.Enter(env.ops, fr), memo);
            Eval(env, n, layer.Around(s), fr, memo)
            == (if layer.InNot? then o else Ticked(o)).(index := o.index - layer.Levels())
  {
    hide Eval, EvalStmts, EvalBlock, CallsBelow, Layer.Opens, Layer.Enter;
    BodyCalls(layer, s, n);
    BodyStops(env, n, layer, s, layer.Enter(env.ops, fr), memo);
    if layer.InNot? {
      assert layer.Enter(env.ops, fr) == fr by { NotEnters(env.ops, layer, fr); }
      EvalParts(env, n, layer.Around(s), fr, memo);
    } else {
      LayerStops(env, n, layer, s, fr, memo);
    }
  }

  lemma NotEnters(ops: Ops, layer: Layer, fr: Frame)
    requires layer.InNot? && layer.Opens(ops, fr)
    ensures layer.Enter(ops, fr) == fr
  {
  }

  /** A break leaves all the layers it has levels for, and arrives with the rest. */
  lemma {:induction false} BreakEscapes(env: Env, n: nat, layers: seq<Layer>, k: nat, fr: Frame, memo: Memo)
    requires env.Valid() && n <= |env.funcs| && CallsBelow(Nest(layers, Break(k)), n)
    requires Reached(env.ops, layers, fr) && Levels(layers) <= k
    ensures Eval(env, n, Nest(layers, Break(k)), fr, memo)
         == Done(true, k - Levels(layers), Inside(env.ops, layers, fr), memo, Ticks(Counted(layers)))
  {
    hide EvalStmts, EvalBlock, CallsBelow, Layer.Opens, Layer.Enter, Layer.Around;
    if layers == [] {
      EvalParts(env, n, Break(k), fr, memo);
    } else {
      hide Eval;
      var inner := Nest(layers[1..], Break(k));
      BodyCalls(layers[0], inner, n);
      BreakEscapes(env, n, layers[1..], k, layers[0].Enter(env.ops, fr), memo);
      LayerPasses(env, n, layers[0], inner, fr, memo);
      TickTicks(Eval(env, n, inner, layers[0].Enter(env.ops, fr), memo), Counted(layers[1..]));
    }
  }

  /** Without a level left for it, a break ends the block: the rest of the block is
      skipped, the blocks after it are not. */
  lemma LandsInBlock(env: Env, n: nat, after: seq<Stmt<nat>>, more: seq<Block<nat>>, layers: seq<Layer>, k: nat, fr: Frame, memo: Memo)
    requires var s := InBlock(after, more).Around(Nest(layers, Break(k)));
             env.Valid() && n <= |env.funcs| && CallsBelow(s, n)
    requires Reached(env.ops, layers, fr) && k == Levels(layers)
    ensures var s := InBlock(after, more).Around(Nest(layers, Break(k)));
            Eval(env, n, s, fr, memo) == After(Ticks(Counted(layers) + 1), EvalBlockStmt(env, n, s.blocks, 1, Inside(env.ops, layers, fr), memo))
  {
    hide Eval, EvalStmts, EvalBlock, EvalBlockStmt, EvalScan, CallsBelow, BlockCallsBelow;
    var layer, inner := InBlock(after, more), Nest(layers, Break(k));
    BodyCalls(layer, inner, n);
    BreakEscapes(env, n, layers, k, fr, memo);
    BodyStops(env, n, layer, inner, fr, memo);
    TickTicks(Eval(env, n, inner, fr, memo), Counted(layers));
    var t := layer.Around(inner);
    assert t.blocks[0] == layer.Body(inner);
    EvalParts(env, n, t, fr, memo);
    EvalBlockStmtStep(env, n, t.blocks, 0, fr, memo);
  }

  /** ... lets `not` succeed, which falling through its block does not. */
  lemma LandsInNot(env: Env, n: nat, after: seq<Stmt<nat>>, layers: seq<Layer>, k: nat, fr: Frame, memo: Memo)
    requires env.Valid() && n <= |env.funcs| && CallsBelow(InNot(after).Around(Nest(layers, Break(k))), n)
    requires Reached(env.ops, layers, fr) && k == Levels(layers)
    ensures Eval(env, n, InNot(after).Around(Nest(layers, Break(k))), fr, memo)
         == Done(false, 0, Inside(env.ops, layers, fr), memo, Ticks(Counted(layers)))
  {
    hide Eval, EvalStmts, EvalBlock, EvalBlockStmt, EvalScan, CallsBelow, BlockCallsBelow;
    var layer, inner := InNot(after), Nest(layers, Break(k));
    BodyCalls(layer, inner, n);
    BreakEscapes(env, n, layers, k, fr, memo);
    BodyStops(env, n, layer, inner, fr, memo);
    EvalParts(env, n, layer.Around(inner), fr, memo);
  }

  /** ... goes on with the next element of a scan; with one more level it ends the scan. */
  lemma LandsInScan(env: Env, n: nat, layer: Layer, layers: seq<Layer>, k: nat, fr: Frame, memo: Memo)
    requires layer.InScan? && layer.Opens(env.ops, fr)
    requires env.Valid() && n <= |env.funcs| && CallsBelow(layer.Around(Nest(layers, Break(k))), n)
    requires Reached(env.ops, layers, layer.Enter(env.ops, fr)) && Levels(layers) <= k <= Levels(layers) + 1
    ensures var s, there := layer.Around(Nest(layers, Break(k))), Inside(env.ops, layers, layer.Enter(env.ops, fr));
            && BlockCallsBelow(s.block, n)
            && Eval(env, n, s, fr, memo) ==
               if k == Levels(layers) then
                 LeaveBlock(After(Ticks(Counted(layers) + 1), EvalScan(env, n, layer.keyLocal, layer.valueLocal, s.block,
                                                      env.ops.iter(fr.Get(layer.local)).v, 1, there, memo)))
               else Done(false, 0, there, memo, Ticks(Counted(layers) + 1))
  {
    hide Eval, EvalStmts, EvalBlock, EvalBlockStmt, EvalScan, CallsBelow, BlockCallsBelow;
    var inner := Nest(layers, Break(k));
    BodyCalls(layer, inner, n);
    BreakEscapes(env, n, layers, k, layer.Enter(env.ops, fr), memo);
    BodyStops(env, n, layer, inner, layer.Enter(env.ops, fr), memo);
    TickTicks(Eval(env, n, inner, layer.Enter(env.ops, fr), memo), Counted(layers));
    var s := layer.Around(inner);
    EvalScanParts(env, n, s, fr, memo);
    EvalScanStep(env, n, layer.keyLocal, layer.valueLocal, s.block, env.ops.iter(fr.Get(layer.local)).v, 0, fr, memo);
  }

  lemma WithAsNot(s: Stmt<nat>, layer: Layer, inner: Stmt<nat>, n: nat)
    requires s.With? && layer.InNot? && s.block == layer.Body(inner) && CallsBelow(s, n)
    ensures CallsBelow(layer.Around(inner), n)
  {
    assert BlockCallsBelow(s.block, n);
  }

  /** However many levels are left, `with` passes a break on with none: it ends just the
      block around. The replaced local is as before. */
  lemma WithFlattens(env: Env, n: nat, local: int, segments: seq<int>, item: Operand, after: seq<Stmt<nat>>,
                     layers: seq<Layer>, k: nat, fr: Frame, memo: Memo)
    requires var inner := Nest(layers, Break(k));
             env.Valid() && n <= |env.funcs| && CallsBelow(With(local, segments, item, Block([inner] + after)), n)
    requires var r := Upsert(env.ops, fr.Get(local), segments, fr.Val(env.ops, item));
             r.Ok? && Reached(env.ops, layers, fr.Set(local, r.v))
    requires Levels(layers) <= k
    ensures var o := Eval(env, n, With(local, segments, item, Block([Nest(layers, Break(k))] + after)), fr, memo);
            && o.Done? && o.stop && o.index == 0 && o.trace == Ticks(Counted(layers)) && o.memo == memo
            && o.frame.Get(local) == fr.Get(local)
  {
    hide Eval, EvalStmts, EvalBlock, Upsert, CallsBelow, Layer.Opens;
    var v := Upsert(env.ops, fr.Get(local), segments, fr.Val(env.ops, item)).v;
    var layer, inner := InNot(after), Nest(layers, Break(k));
    var s := With(local, segments, item, Block([inner] + after));
    WithAsNot(s, layer, inner, n);
    EvalWithParts(env, n, s, fr, memo);
    BodyCalls(layer, inner, n);
    BreakEscapes(env, n, layers, k, fr.Set(local, v), map[]);
    BodyStops(env, n, layer, inner, fr.Set(local, v), map[]);
  }
}
