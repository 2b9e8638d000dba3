/** What the statements of a policy do, said about evaluation as a whole and in terms of the
    locals of a frame alone: which statements go on, stop or fail, and what they assign. */
module StatementLaws {
  import opened ByteCodec
  import opened Ir
  import opened Evaluation
  import opened EvaluationSteps

  // ---- Operands and ends ----

  /** The value that a local has, if any. */
  ghost predicate Has(fr: Frame, l: int, v: Maybe) {
    (v.Some? <==> l in fr.locals) && (v.Some? ==> fr.locals[l] == v.value)
  }

  ghost predicate Reads(ops: Ops, fr: Frame, o: Operand, v: Maybe) {
    && (o.Local? ==> Has(fr, o.local, v))
    && (o.BoolConst? ==> v == Some(ops.boolean(o.truth)))
    && (o.StringIndex? ==> v == Some(ops.text(o.index)))
  }

  /** Evaluation goes on with the next statement, and nothing has changed. */
  ghost predicate GoesOn(o: Outcome, fr: Frame, memo: Memo) { o == Done(false, 0, fr, memo, Trace({}, {}, 0)) }

  /** The block ends here, and nothing has changed. */
  ghost predicate Stops(o: Outcome, fr: Frame, memo: Memo) { o == Done(true, 0, fr, memo, Trace({}, {}, 0)) }

  ghost predicate Errs(o: Outcome, e: Error) { o == Fail(e, Trace({}, {}, 0)) }

  /** The local `l` has been given the value `v`, or none; no other has changed. */
  ghost predicate Stored(fr: Frame, fr': Frame, l: int, v: Maybe) {
    && Has(fr', l, v) && fr'.ret == fr.ret
    && forall k | k != l :: (k in fr'.locals <==> k in fr.locals) && (k in fr.locals ==> fr'.locals[k] == fr.locals[k])
  }

  /** Evaluation goes on with `v` in `l`. */
  ghost predicate Assigns(o: Outcome, fr: Frame, memo: Memo, l: int, v: Maybe) {
    && o.Done? && o == Done(false, 0, o.frame, memo, Trace({}, {}, 0))
    && Stored(fr, o.frame, l, v) && o.frame.data == fr.data
  }

  ghost predicate Runs(env: Env, n: nat) { env.Valid() && n <= |env.funcs| }

  /** A statement without blocks and calls. */
  lemma FlatIs(env: Env, n: nat, s: Stmt<nat>, fr: Frame, memo: Memo)
    requires Runs(env, n) && IsFlat(s)
    ensures CallsBelow(s, n) && Eval(env, n, s, fr, memo) == Lifted(Step(env.ops, s, fr), memo)
  {
    hide Eval, Step, Lifted;
    EvalParts(env, n, s, fr, memo);
  }

  lemma Sets(fr: Frame, l: int, v: Maybe)
    ensures Stored(fr, fr.Set(l, v), l, v) && fr.Set(l, v).data == fr.data
  {
  }

  lemma Gets(fr: Frame, l: int, v: Maybe)
    requires Has(fr, l, v)
    ensures fr.Get(l) == v
  {
  }

  lemma Valued(ops: Ops, fr: Frame, o: Operand, v: Maybe)
    requires Reads(ops, fr, o, v)
    ensures fr.Val(ops, o) == v
  {
  }

  // ---- Comparisons and tests ----

  lemma EqualLaw(env: Env, n: nat, a: Operand, b: Operand, fr: Frame, memo: Memo, va: Maybe, vb: Maybe)
    requires Runs(env, n) && Reads(env.ops, fr, a, va) && Reads(env.ops, fr, b, vb)
    ensures var o, r := Eval(env, n, Equal(a, b), fr, memo), env.ops.equal(va, vb);
            && (GoesOn(o, fr, memo) <==> (va.None? && vb.None?) || (va.Some? && vb.Some? && r == Res<bool>.Ok(true)))
            && (Stops(o, fr, memo) <==> va.Some? != vb.Some? || (va.Some? && vb.Some? && r == Res<bool>.Ok(false)))
            && (forall e :: Errs(o, e) <==> va.Some? && vb.Some? && r == Res<bool>.Err(e))
  {
    hide Eval, Env.Valid;
    FlatIs(env, n, Equal(a, b), fr, memo);
  }

  /** A comparison for difference goes on exactly when the one for equality stops. */
  lemma NotEqualLaw(env: Env, n: nat, a: Operand, b: Operand, fr: Frame, memo: Memo)
    requires Runs(env, n)
    ensures var o, o' := Eval(env, n, NotEqual(a, b), fr, memo), Eval(env, n, Equal(a, b), fr, memo);
            && (GoesOn(o, fr, memo) <==> Stops(o', fr, memo)) && (Stops(o, fr, memo) <==> GoesOn(o', fr, memo))
            && (forall e :: Errs(o, e) <==> Errs(o', e))
            && (GoesOn(o, fr, memo) || Stops(o, fr, memo) || exists e :: Errs(o, e))
  {
    hide Eval, Env.Valid;
    FlatIs(env, n, Equal(a, b), fr, memo);
    FlatIs(env, n, NotEqual(a, b), fr, memo);
    var o := Eval(env, n, NotEqual(a, b), fr, memo);
    if o.Fail? { assert Errs(o, o.error); }
  }

  /** A test that succeeds goes on, one that does not stops. */
  ghost predicate Tests(o: Outcome, r: Res<bool>, fr: Frame, memo: Memo) {
    && (r == Res<bool>.Ok(true) ==> GoesOn(o, fr, memo)) && (r == Res<bool>.Ok(false) ==> Stops(o, fr, memo))
    && (r.Err? ==> Errs(o, r.error))
  }

  /** What a test for a type says of a value. */
  ghost predicate TypeTest(ops: Ops, s: Stmt<nat>, a: Operand, v: Value, r: Res<bool>) {
    || (s == IsArray(a) && r == ops.isArray(v))
    || (s == IsObject(a) && r == ops.isObject(v))
    || (s == IsSet(a) && r == ops.isSet(v))
  }

  lemma TypeLaw(env: Env, n: nat, s: Stmt<nat>, a: Operand, fr: Frame, memo: Memo, v: Maybe, r: Res<bool>)
    requires Runs(env, n) && Reads(env.ops, fr, a, v)
    requires if v.Some? then TypeTest(env.ops, s, a, v.value, r) else s == IsArray(a) || s == IsObject(a) || s == IsSet(a)
    ensures CallsBelow(s, n)
    ensures var o := Eval(env, n, s, fr, memo); if v.None? then Stops(o, fr, memo) else Tests(o, r, fr, memo)
  {
    hide Eval, Env.Valid;
    FlatIs(env, n, s, fr, memo);
  }

  lemma DefinedLaws(env: Env, n: nat, l: int, fr: Frame, memo: Memo)
    requires Runs(env, n)
    ensures var d, u := Eval(env, n, IsDefined(l), fr, memo), Eval(env, n, IsUndefined(l), fr, memo);
            if l in fr.locals then GoesOn(d, fr, memo) && Stops(u, fr, memo) else Stops(d, fr, memo) && GoesOn(u, fr, memo)
  {
    hide Eval, Env.Valid;
    FlatIs(env, n, IsDefined(l), fr, memo);
    FlatIs(env, n, IsUndefined(l), fr, memo);
  }

  // ---- Assignments ----

  lemma AssignLaw(env: Env, n: nat, a: Operand, l: int, fr: Frame, memo: Memo, v: Maybe)
    requires Runs(env, n) && Reads(env.ops, fr, a, v)
    ensures Assigns(Eval(env, n, AssignVar(a, l), fr, memo), fr, memo, l, v)
  {
    hide Eval, Env.Valid;
    FlatIs(env, n, AssignVar(a, l), fr, memo);
  }

  /** The first assignment counts; a later one must agree with it. */
  lemma AssignOnceLaw(env: Env, n: nat, a: Operand, l: int, fr: Frame, memo: Memo, v: Maybe)
    requires Runs(env, n) && Reads(env.ops, fr, a, v)
    ensures var o := Eval(env, n, AssignVarOnce(a, l), fr, memo);
            if l !in fr.locals then Assigns(o, fr, memo, l, v)
            else if v.None? then Errs(o, VarAssignConflict)
            else
              var r := env.ops.equal(v, Some(fr.locals[l]));
              && (r.Err? ==> Errs(o, r.error)) && (r == Res<bool>.Ok(true) ==> GoesOn(o, fr, memo))
              && (r == Res<bool>.Ok(false) ==> Errs(o, VarAssignConflict))
  {
    hide Eval, Env.Valid;
    FlatIs(env, n, AssignVarOnce(a, l), fr, memo);
  }

  /** The values that statements make. */
  ghost predicate Makes(ops: Ops, s: Stmt<nat>, l: int, v: Value) {
    || (s == MakeNull(l) && v == ops.nil)
    || (s == MakeSet(l) && v == ops.emptySet)
    || (s == MakeObject(l) && v == ops.emptyObject)
    || (s.MakeArray? && s == MakeArray(s.capacity, l) && v == ops.makeArray(s.capacity))
    || (s.MakeNumberInt? && s == MakeNumberInt(s.value, l) && v == ops.number(s.value))
    || (s.MakeNumberRef? && s == MakeNumberRef(s.text, l) && v == ops.numberRef(s.text))
    || (s.AssignInt? && s == AssignInt(s.value, l) && v == ops.number(s.value))
  }

  lemma MakeStep(ops: Ops, s: Stmt<nat>, l: int, fr: Frame, v: Value)
    requires Makes(ops, s, l, v)
    ensures IsFlat(s) && Step(ops, s, fr) == Next(fr.Set(l, Some(v)))
  {
  }

  lemma MakeLaw(env: Env, n: nat, s: Stmt<nat>, l: int, fr: Frame, memo: Memo, v: Value)
    requires Runs(env, n) && Makes(env.ops, s, l, v)
    ensures CallsBelow(s, n) && Assigns(Eval(env, n, s, fr, memo), fr, memo, l, Some(v))
  {
    hide Eval, Env.Valid, Step, Frame.Set, Stored;
    MakeStep(env.ops, s, l, fr, v);
    FlatIs(env, n, s, fr, memo);
    Sets(fr, l, Some(v));
  }

  /** A reset local has no value, and is no longer part of the data document. */
  lemma ResetLaw(env: Env, n: nat, l: int, fr: Frame, memo: Memo)
    requires Runs(env, n)
    ensures var o := Eval(env, n, ResetLocal(l), fr, memo);
            && o.Done? && o == Done(false, 0, o.frame, memo, Trace({}, {}, 0))
            && Stored(fr, o.frame, l, None) && o.frame.data == fr.data - {l}
  {
    hide Eval, Env.Valid;
    FlatIs(env, n, ResetLocal(l), fr, memo);
  }

  lemma ReturnLaw(env: Env, n: nat, l: int, fr: Frame, memo: Memo)
    requires Runs(env, n)
    ensures var o := Eval(env, n, ReturnLocal(l), fr, memo);
            && o.Done? && GoesOn(o, o.frame, memo) && o.frame.locals == fr.locals && o.frame.data == fr.data
            && o.frame.ret == if l in fr.locals then l else -1
  {
    hide Eval, Env.Valid;
    FlatIs(env, n, ReturnLocal(l), fr, memo);
  }

  lemma OtherLaws(env: Env, n: nat, k: nat, fr: Frame, memo: Memo)
    requires Runs(env, n)
    ensures GoesOn(Eval(env, n, Nop, fr, memo), fr, memo)
    ensures Eval(env, n, Break(k), fr, memo) == Done(true, k, fr, memo, Trace({}, {}, 0))
  {
    hide Eval, Env.Valid;
    FlatIs(env, n, Nop, fr, memo);
    FlatIs(env, n, Break(k), fr, memo);
  }

  // ---- Access ----

  /** What is found in `v` under `k`: in the data document, a number is also tried as text. */
  ghost predicate Finds(ops: Ops, data: bool, v: Value, k: Value, r: Res<Maybe>) {
    var first, text := ops.get(v, k), ops.numberText(k);
    if !data || first.Err? || first.v.Some? then r == first
    else if text.Err? || text.v.None? then r == text
    else r == ops.get(v, text.v.value)
  }

  lemma DotIs(ops: Ops, source: Operand, key: Operand, target: int, fr: Frame)
    ensures Step(ops, Dot(source, key, target), fr) == DotStep(ops, source, key, target, fr)
  {
    hide DotStep;
  }

  lemma SetsData(fr: Frame, l: int, v: Maybe, data: set<int>)
    ensures var fr' := fr.Set(l, v).(data := data); Stored(fr, fr', l, v) && fr'.data == data
  {
  }

  /** Access goes on with what it finds, which belongs to the data document if it was found
      there, and otherwise stops with an undefined target. */
  lemma DotLaw(env: Env, n: nat, l: int, key: Operand, target: int, fr: Frame, memo: Memo, v: Maybe, k: Maybe, r: Res<Maybe>)
    requires Runs(env, n) && Has(fr, l, v) && Reads(env.ops, fr, key, k)
    requires v.Some? && k.Some? ==> Finds(env.ops, l in fr.data, v.value, k.value, r)
    ensures var o := Eval(env, n, Dot(Operand.Local(l), key, target), fr, memo);
            if v.None? || k.None? || r == Res<Maybe>.Ok(None) then
              && o.Done? && Stops(o, o.frame, memo) && Stored(fr, o.frame, target, None) && o.frame.data == fr.data - {target}
            else if r.Err? then Errs(o, r.error)
            else
              && o.Done? && GoesOn(o, o.frame, memo) && Stored(fr, o.frame, target, r.v)
              && o.frame.data == if l in fr.data then fr.data + {target} else fr.data
  {
    hide Eval, Env.Valid, Step, Frame.Set, Frame.Get, Frame.Val, Stored, Has, Reads;
    DotIs(env.ops, Operand.Local(l), key, target, fr);
    FlatIs(env, n, Dot(Operand.Local(l), key, target), fr, memo);
    Gets(fr, l, v);
    Valued(env.ops, fr, key, k);
    Sets(fr, target, None);
    Sets(fr, target, if r.Ok? then r.v else None);
    SetsData(fr, target, None, fr.data - {target});
    SetsData(fr, target, if r.Ok? then r.v else None, fr.data + {target});
  }

  lemma ConstantDotLaw(env: Env, n: nat, source: Operand, key: Operand, target: int, fr: Frame, memo: Memo)
    requires Runs(env, n) && !source.Local?
    ensures Stops(Eval(env, n, Dot(source, key, target), fr, memo), fr, memo)
  {
    hide Eval, Env.Valid;
    FlatIs(env, n, Dot(source, key, target), fr, memo);
  }

  // ---- Collections ----

  /** Evaluation goes on with the defined value in `l`, or fails as the operation does. */
  ghost predicate AssignsResult(o: Outcome, fr: Frame, memo: Memo, l: int, r: Res<Value>) {
    if r.Err? then Errs(o, r.error) else Assigns(o, fr, memo, l, Some(r.v))
  }

  lemma SetAddLaw(env: Env, n: nat, a: Operand, l: int, fr: Frame, memo: Memo, v: Maybe, c: Maybe)
    requires Runs(env, n) && Reads(env.ops, fr, a, v) && Has(fr, l, c)
    ensures AssignsResult(Eval(env, n, SetAdd(a, l), fr, memo), fr, memo, l, env.ops.setAdd(c, v))
  {
    hide Eval, Env.Valid;
    FlatIs(env, n, SetAdd(a, l), fr, memo);
  }

  lemma LenLaw(env: Env, n: nat, a: Operand, l: int, fr: Frame, memo: Memo, v: Maybe)
    requires Runs(env, n) && Reads(env.ops, fr, a, v)
    ensures AssignsResult(Eval(env, n, Len(a, l), fr, memo), fr, memo, l, env.ops.len(v))
  {
    hide Eval, Env.Valid;
    FlatIs(env, n, Len(a, l), fr, memo);
  }

  lemma ArrayAppendLaw(env: Env, n: nat, a: Operand, l: int, fr: Frame, memo: Memo, v: Maybe, c: Maybe)
    requires Runs(env, n) && Reads(env.ops, fr, a, v) && Has(fr, l, c)
    ensures var o, r := Eval(env, n, ArrayAppend(a, l), fr, memo), env.ops.append(c, v);
            && (r.Err? ==> Errs(o, r.error)) && (r.Ok? && r.v.Some? ==> Assigns(o, fr, memo, l, r.v))
            && (r == Res<Maybe>.Ok(None) ==> GoesOn(o, fr, memo))
  {
    hide Eval, Env.Valid;
    FlatIs(env, n, ArrayAppend(a, l), fr, memo);
  }

  /** An insertion assigns the object only if the operation has returned another one. */
  ghost predicate Inserts(ops: Ops, o: Outcome, fr: Frame, memo: Memo, l: int, obj: Maybe, k: Maybe, v: Maybe) {
    var r := ops.objectInsert(obj, k, v);
    if r.Err? then Errs(o, r.error) else if r.v.1 then Assigns(o, fr, memo, l, Some(r.v.0)) else GoesOn(o, fr, memo)
  }

  lemma InsertIs(ops: Ops, key: Operand, item: Operand, l: int, fr: Frame)
    ensures Step(ops, ObjectInsert(key, item, l), fr) == InsertStep(ops, fr.Val(ops, key), fr.Val(ops, item), l, fr)
    ensures Step(ops, ObjectInsertOnce(key, item, l), fr) == InsertOnce(ops, fr.Val(ops, key), fr.Val(ops, item), l, fr)
  {
    hide InsertStep, InsertOnce;
  }

  lemma InsertStepLaw(ops: Ops, fr: Frame, memo: Memo, l: int, obj: Maybe, k: Maybe, v: Maybe)
    requires Has(fr, l, obj)
    ensures Inserts(ops, Lifted(InsertStep(ops, k, v, l, fr), memo), fr, memo, l, obj, k, v)
  {
    hide Frame.Set, Frame.Get, Stored, Has;
    Gets(fr, l, obj);
    var r := ops.objectInsert(obj, k, v);
    Sets(fr, l, if r.Ok? then Some(r.v.0) else None);
  }

  lemma InsertLaw(env: Env, n: nat, key: Operand, item: Operand, l: int, fr: Frame, memo: Memo, obj: Maybe, k: Maybe, v: Maybe)
    requires Runs(env, n) && Has(fr, l, obj) && Reads(env.ops, fr, key, k) && Reads(env.ops, fr, item, v)
    ensures Inserts(env.ops, Eval(env, n, ObjectInsert(key, item, l), fr, memo), fr, memo, l, obj, k, v)
  {
    hide Eval, Env.Valid, Step, InsertStep, Frame.Val, Lifted, Inserts;
    InsertIs(env.ops, key, item, l, fr);
    FlatIs(env, n, ObjectInsert(key, item, l), fr, memo);
    Valued(env.ops, fr, key, k);
    Valued(env.ops, fr, item, v);
    InsertStepLaw(env.ops, fr, memo, l, obj, k, v);
  }

  /** A key that is there already must have an equal value. */
  lemma InsertOnceLaw(env: Env, n: nat, key: Operand, item: Operand, l: int, fr: Frame, memo: Memo, obj: Maybe, k: Maybe, v: Maybe)
    requires Runs(env, n) && Has(fr, l, obj) && Reads(env.ops, fr, key, k) && Reads(env.ops, fr, item, v)
    ensures var o, there := Eval(env, n, ObjectInsertOnce(key, item, l), fr, memo), env.ops.objectGet(obj, k);
            if there.Err? then Errs(o, there.error)
            else if there.v.None? then Inserts(env.ops, o, fr, memo, l, obj, k, v)
            else
              var same := env.ops.equal(v, there.v);
              && (same.Err? ==> Errs(o, same.error)) && (same == Res<bool>.Ok(false) ==> Errs(o, ObjectInsertConflict))
              && (same == Res<bool>.Ok(true) ==> Inserts(env.ops, o, fr, memo, l, obj, k, v))
  {
    hide Eval, Env.Valid, Step, InsertStep, Frame.Val, Frame.Get, Inserts;
    InsertIs(env.ops, key, item, l, fr);
    FlatIs(env, n, ObjectInsertOnce(key, item, l), fr, memo);
    Gets(fr, l, obj);
    Valued(env.ops, fr, key, k);
    Valued(env.ops, fr, item, v);
    InsertStepLaw(env.ops, fr, memo, l, obj, k, v);
  }

  lemma MergeIs(ops: Ops, a: int, b: int, l: int, fr: Frame)
    ensures Step(ops, ObjectMerge(a, b, l), fr) == MergeStep(ops, fr.Get(a), fr.Get(b), l, fr)
  {
    hide MergeStep;
  }

  /** Two objects are merged; an undefined side leaves the other, and anything that is no
      object is a conflict. */
  lemma MergeLaw(env: Env, n: nat, a: int, b: int, l: int, fr: Frame, memo: Memo, va: Maybe, vb: Maybe)
    requires Runs(env, n) && Has(fr, a, va) && Has(fr, b, vb)
    ensures var o := Eval(env, n, ObjectMerge(a, b, l), fr, memo);
            if va.None? then Assigns(o, fr, memo, l, vb)
            else if vb.None? then Assigns(o, fr, memo, l, va)
            else
              var ra, rb := env.ops.isObject(va.value), env.ops.isObject(vb.value);
              if ra.Err? then Errs(o, ra.error)
              else if !ra.v then Errs(o, ObjectInsertConflict)
              else if rb.Err? then Errs(o, rb.error)
              else if !rb.v then Errs(o, ObjectInsertConflict)
              else AssignsResult(o, fr, memo, l, env.ops.objectMerge(va.value, vb.value))
  {
    hide Eval, Env.Valid, Step, Frame.Set, Frame.Get, Stored, Has;
    MergeIs(env.ops, a, b, l, fr);
    FlatIs(env, n, ObjectMerge(a, b, l), fr, memo);
    Gets(fr, a, va);
    Gets(fr, b, vb);
    Sets(fr, l, va);
    Sets(fr, l, vb);
    if va.Some? && vb.Some? {
      var r := env.ops.objectMerge(va.value, vb.value);
      Sets(fr, l, if r.Ok? then Some(r.v) else None);
    }
  }

  /** The value of a local becomes part of the result, if it has one. */
  lemma ResultLaw(env: Env, n: nat, l: int, fr: Frame, memo: Memo)
    requires Runs(env, n)
    ensures Eval(env, n, ResultSetAdd(l), fr, memo)
         == Done(false, 0, fr, memo, Trace(if l in fr.locals then {fr.locals[l]} else {}, {}, 0))
  {
    hide Eval, Env.Valid;
    FlatIs(env, n, ResultSetAdd(l), fr, memo);
  }

  // ---- Scans, replaced documents and calls ----

  /** The block of a scan runs with the key and the value of an element in their locals; if
      they are one local, it has the value. */
  lemma ScanElementLaw(env: Env, n: nat, keyLocal: int, valueLocal: int, b: Block<nat>, elems: seq<(Value, Value)>, k: nat,
                       fr: Frame, memo: Memo, fr': Frame)
    requires Runs(env, n) && BlockCallsBelow(b, n) && k < |elems|
    requires fr' == fr.(locals := fr.locals[keyLocal := elems[k].0][valueLocal := elems[k].1])
    ensures var o := EvalBlock(env, n, b, fr', memo);
            EvalScan(env, n, keyLocal, valueLocal, b, elems, k, fr, memo) ==
              if o.Fail? || o.stop then o
              else After(o.trace, EvalScan(env, n, keyLocal, valueLocal, b, elems, k + 1, o.frame, o.memo))
  {
    EvalScanStep(env, n, keyLocal, valueLocal, b, elems, k, fr, memo);
    hide EvalScan, EvalBlock, BlockCallsBelow, After;
  }

  /** What objects are put into: a copy of the object that is there, or an empty one. */
  ghost predicate Base(ops: Ops, there: Maybe, r: Res<Value>) {
    if there.None? then r == Res<Value>.Ok(ops.emptyObject)
    else
      var yes := ops.isObject(there.value);
      && (yes.Err? ==> r == Res<Value>.Err(yes.error))
      && (yes == Res<bool>.Ok(true) ==> r == ops.copyShallow(there.value))
      && (yes == Res<bool>.Ok(false) ==> r == Res<Value>.Ok(ops.emptyObject))
  }

  /** The empty path replaces the document itself. Any other puts, under its first key, the
      replacement within what stands there. */
  lemma UpsertLaw(ops: Ops, there: Maybe, k: int, rest: seq<int>, v: Maybe, base: Res<Value>)
    requires Base(ops, there, base)
    ensures Upsert(ops, there, [], v) == Res<Maybe>.Ok(v)
    ensures var r := Upsert(ops, there, [k] + rest, v);
            if base.Err? then r == Res<Maybe>.Err(base.error)
            else
              var below := if rest == [] then Res<Maybe>.Ok(None) else ops.get(base.v, ops.text(k));
              if below.Err? then r == Res<Maybe>.Err(below.error)
              else
                var inner := Upsert(ops, below.v, rest, v);
                if inner.Err? then r == Res<Maybe>.Err(inner.error)
                else
                  var put := ops.objectInsert(Some(base.v), Some(ops.text(k)), inner.v);
                  r == if put.Err? then Res<Maybe>.Err(put.error) else Res<Maybe>.Ok(Some(put.v.0))
  {
    var path := [k] + rest;
    assert path[0] == k && path[1..] == rest;
  }

  /** A call is remembered under its function and arguments if these are at most nine, and
      none of them is a collection. The input and the data document are no part of them. */
  lemma CallLaw(env: Env, i: nat, args: seq<Maybe>, memo: Memo, own: seq<Maybe>)
    requires env.Valid() && i < |env.funcs| && env.funcs[i].Func? && 2 <= |env.funcs[i].params| <= |args|
    requires own == args[2..|env.funcs[i].params|]
    ensures var r, run, key := EvalFunc(env, i, args, memo), RunFunc(env, i, args, memo), KeyOf(i, own);
            if |own| > 9 || exists k :: 0 <= k < |own| && own[k].Some? && own[k].value.Collection? then r == run
            else if env.memoize && key in memo then
              r.Returned? && r.memo == memo && r.value == memo[key] && r.has == memo[key].Some? && r.trace.steps == 0
            else if run.Failed? then r.Failed? && r.error == run.error
            else
              && r.Returned? && r.has == run.has && r.value == run.value
              && r.memo == if !env.memoize then run.memo else run.memo[key := if run.has then run.value else None]
  {
    FuncCall(env, i, args, memo);
    hide EvalFunc, RunFunc, KeyOf, Blanks, Env.Valid;
  }

  /** A function starts with its arguments in its parameters, the last of two that are the
      same local, and with the documents in the first two locals unless these are parameters. */
  lemma {:induction false} EnterLaw(env: Env, params: seq<int>, args: seq<Maybe>, n: nat, l: int)
    requires n <= |params| <= |args|
    ensures var fr := env.Enter(params, args, n);
            && fr.ret == -1 && fr.data == {1}
            && (l !in params[..n] ==> Has(fr, l, if l == 0 then env.input else if l == 1 then env.data else None))
            && (l in params[..n] ==> exists i :: 0 <= i < n && params[i] == l && l !in params[i + 1..n] && Has(fr, l, args[i]))
  {
    hide Env.Fresh, Frame.Set, Has;
    if n == 0 {
      FreshLaw(env, l);
    } else {
      EnterLaw(env, params, args, n - 1, l);
      assert params[..n] == params[..n - 1] + [params[n - 1]];
      SetLaw(env.Enter(params, args, n - 1), params[n - 1], args[n - 1], l);
      if l == params[n - 1] {
        assert params[n..n] == [];
      } else if l in params[..n] {
        var i :| 0 <= i < n - 1 && params[i] == l && l !in params[i + 1..n - 1] && Has(env.Enter(params, args, n - 1), l, args[i]);
        assert params[i + 1..n] == params[i + 1..n - 1] + [params[n - 1]];
      }
    }
  }

  lemma FreshLaw(env: Env, l: int)
    ensures var fr := env.Fresh();
            fr.ret == -1 && fr.data == {1} && Has(fr, l, if l == 0 then env.input else if l == 1 then env.data else None)
  {
  }

  lemma SetLaw(fr: Frame, k: int, v: Maybe, l: int)
    ensures fr.Set(k, v).ret == fr.ret && fr.Set(k, v).data == fr.data
    ensures if l == k then Has(fr.Set(k, v), l, v) else forall w :: Has(fr, l, w) ==> Has(fr.Set(k, v), l, w)
  {
  }

  // ---- What is counted ----

  /** At least the first statement of a sequence is dispatched, at most all of them are, and
      all of them are if none stops or fails. */
  lemma {:induction false} DispatchedLaw(env: Env, n: nat, ss: seq<Stmt<nat>>, k: nat, fr: Frame, memo: Memo)
    requires Runs(env, n) && k <= |ss| && forall i | 0 <= i < |ss| :: CallsBelow(ss[i], n)
    ensures var d, o := Dispatched(env, n, ss, k, fr, memo), EvalStmts(env, n, ss, k, fr, memo);
            (if k < |ss| then 1 else 0) <= d <= |ss| - k && (o.Done? && !o.stop ==> d == |ss| - k)
    decreases |ss| - k
  {
    hide Eval, EvalStmts, Dispatched, CallsBelow, Env.Valid;
    EvalStmtsStep(env, n, ss, k, fr, memo);
    DispatchedStep(env, n, ss, k, fr, memo);
    if k < |ss| {
      var o := Eval(env, n, ss[k], fr, memo);
      if o.Done? && !o.stop {
        DispatchedLaw(env, n, ss, k + 1, o.frame, o.memo);
      }
    }
  }

  /** Blocks are entered in turn, and all of them unless one fails. */
  lemma {:induction false} EnteredLaw(env: Env, n: nat, bs: seq<Block<nat>>, k: nat, fr: Frame, memo: Memo)
    requires Runs(env, n) && k <= |bs| && forall i | 0 <= i < |bs| :: BlockCallsBelow(bs[i], n)
    ensures var e, o := Entered(env, n, bs, k, fr, memo), EvalBlocks(env, n, bs, k, fr, memo);
            (if k < |bs| then 1 else 0) <= e <= |bs| - k && (o.Done? ==> e == |bs| - k)
    decreases |bs| - k
  {
    hide EvalBlock, EvalBlocks, Entered, BlockCallsBelow, Env.Valid;
    EvalBlocksStep(env, n, bs, k, fr, memo);
    EnteredStep(env, n, bs, k, fr, memo);
    if k < |bs| {
      var o := EvalBlock(env, n, bs[k], fr, memo);
      if o.Done? {
        EnteredLaw(env, n, bs, k + 1, o.frame, o.memo);
      }
    }
  }

  /** A plan that makes null and adds it to the result set. */
  function NullPlan(): seq<Block<nat>> { [Block([MakeNull(2), ResultSetAdd(2)])] }

  lemma TwoAfter(fr: Frame, memo: Memo, t: Trace, d: nat)
    ensures After(NOTHING, After(t, Through(fr, memo))) == Done(false, 0, fr, memo, t)
    ensures After(Ticks(d), Done(false, 0, fr, memo, t)) == Done(false, 0, fr, memo, Trace(t.adds, t.blanks, d + t.steps))
  {
    PlusNothing(t);
    assert {} + t.adds == t.adds && {} + t.blanks == t.blanks;
  }

  lemma NullBlock(env: Env, n: nat, fr: Frame)
    requires Runs(env, n)
    ensures BlockCallsBelow(NullPlan()[0], n)
    ensures var o := EvalBlock(env, n, NullPlan()[0], fr, map[]);
            o.Done? && o.trace == Trace({env.ops.nil}, {}, 2)
  {
    hide Eval, EvalStmts, Dispatched, EvalBlock, Env.Valid, Step, After;
    var ss := NullPlan()[0].stmts;
    var o := NullMade(env, n, fr);
    ResultLaw(env, n, 2, o.frame, map[]);
    EvalStmtsStep(env, n, ss, 0, fr, map[]);
    EvalStmtsStep(env, n, ss, 1, o.frame, map[]);
    EvalStmtsStep(env, n, ss, 2, o.frame, map[]);
    TwoAfter(o.frame, map[], Trace({env.ops.nil}, {}, 0), 2);
    DispatchedStep(env, n, ss, 0, fr, map[]);
    DispatchedStep(env, n, ss, 1, o.frame, map[]);
    DispatchedStep(env, n, ss, 2, o.frame, map[]);
    EvalBlockParts(env, n, NullPlan()[0], fr, map[]);
  }

  lemma NullMade(env: Env, n: nat, fr: Frame) returns (o: Outcome)
    requires Runs(env, n)
    ensures CallsBelow(MakeNull(2), n) && o == Eval(env, n, MakeNull(2), fr, map[])
    ensures o.Done? && o == Done(false, 0, o.frame, map[], NOTHING) && 2 in o.frame.locals && o.frame.locals[2] == env.ops.nil
  {
    hide Eval, Env.Valid;
    MakeLaw(env, n, MakeNull(2), 2, fr, map[], env.ops.nil);
    o := Eval(env, n, MakeNull(2), fr, map[]);
  }

  /** It costs one block and two statements. */
  lemma NullPlanLaw(env: Env)
    requires env.Valid()
    ensures forall i | 0 <= i < |NullPlan()| :: BlockCallsBelow(NullPlan()[i], |env.funcs|)
    ensures PlanResult(env, NullPlan()) == Res<set<Value>>.Ok({env.ops.nil}) && PlanCost(env, NullPlan()) == 3
  {
    hide EvalBlock, EvalBlocks, Entered, Env.Valid, Env.Fresh, BlockCallsBelow;
    var n, bs, fr := |env.funcs|, NullPlan(), env.Fresh();
    NullBlock(env, n, fr);
    var o := EvalBlock(env, n, bs[0], fr, map[]);
    EvalBlocksStep(env, n, bs, 0, fr, map[]);
    EvalBlocksStep(env, n, bs, 1, o.frame, o.memo);
    EnteredStep(env, n, bs, 0, fr, map[]);
    EnteredStep(env, n, bs, 1, o.frame, o.memo);
    PlusNothing(o.trace);
  }
}
