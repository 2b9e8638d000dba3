/** The pool of database connections: concurrent queries that ask for the same key end
    up with the same connection, and a connection opened in vain is closed again. */
module ConnectionPools {
  import opened ByteCodec

  /** An opened database; `abandoned` if its query has failed without handing it on: its
      statement cache could not be created, or it could not be closed. */
  datatype Db = Db(key: string, open: bool, abandoned: bool)

  datatype Phase =
    | Idle
    | Asking(key: string)
    | Opening(key: string)
    | Opened(key: string, db: nat)
    | Discarding(key: string, db: nat, existing: nat)
    | Got(key: string, conn: nat)

  datatype State = State(dbs: seq<Db>, pool: map<string, nat>, threads: seq<Phase>)

  datatype Action = Get(key: string) | Lookup | Open(works: bool) | Recheck(works: bool) | Discard(works: bool) | Leave

  function Moved(st: State, t: nat, next: Phase): State
    requires t < |st.threads|
  {
    st.(threads := st.threads[t := next])
  }

  function Step(st: State, t: nat, a: Action): Option<State> {
    if t >= |st.threads| then None
    else
      var ph := st.threads[t];
      match a
      case Get(key) => if ph.Idle? then Some(Moved(st, t, Asking(key))) else None
      case Lookup =>
        if !ph.Asking? then None
        else if ph.key in st.pool then Some(Moved(st, t, Got(ph.key, st.pool[ph.key])))
        else Some(Moved(st, t, Opening(ph.key)))
      case Open(works) =>
        if !ph.Opening? then None
        else if !works then Some(Moved(st, t, Idle))
        else Some(Moved(st.(dbs := st.dbs + [Db(ph.key, true, false)]), t, Opened(ph.key, |st.dbs|)))
      case Recheck(works) =>
        if !ph.Opened? || ph.db >= |st.dbs| then None
        else if ph.key in st.pool then Some(Moved(st, t, Discarding(ph.key, ph.db, st.pool[ph.key])))
        else if !works then
          Some(Moved(st.(dbs := st.dbs[ph.db := st.dbs[ph.db].(abandoned := true)]), t, Idle))
        else Some(Moved(st.(pool := st.pool[ph.key := ph.db]), t, Got(ph.key, ph.db)))
      case Discard(works) =>
        if !ph.Discarding? || ph.db >= |st.dbs| then None
        else if !works then
          Some(Moved(st.(dbs := st.dbs[ph.db := st.dbs[ph.db].(abandoned := true)]), t, Idle))
        else Some(Moved(st.(dbs := st.dbs[ph.db := st.dbs[ph.db].(open := false)]), t, Got(ph.key, ph.existing)))
      case Leave => if ph.Got? then Some(Moved(st, t, Idle)) else None
  }

  ghost predicate Reaches(st: State, run: seq<(nat, Action)>, end: State)
    decreases |run|
  {
    if run == [] then st == end
    else
      var next := Step(st, run[0].0, run[0].1);
      next.Some? && Reaches(next.value, run[1..], end)
  }

  function Initial(queries: nat): State { State([], map[], seq(queries, i => Idle)) }

  /** The query that has opened database `d` has not disposed of it yet. */
  predicate Owns(ph: Phase, d: nat) { (ph.Opened? || ph.Discarding?) && ph.db == d }

  ghost predicate Owned(st: State, d: nat) { exists t :: 0 <= t < |st.threads| && Owns(st.threads[t], d) }

  predicate Pooled(st: State, d: nat)
    requires d < |st.dbs|
  {
    st.dbs[d].key in st.pool && st.pool[st.dbs[d].key] == d
  }

  ghost predicate PhaseOK(st: State, ph: Phase) {
    match ph
    case Opened(key, d) => d < |st.dbs| && st.dbs[d] == Db(key, true, false)
    case Discarding(key, d, existing) =>
      && d < |st.dbs| && st.dbs[d] == Db(key, true, false)
      && key in st.pool && st.pool[key] == existing && existing != d
    case Got(key, conn) => key in st.pool && st.pool[key] == conn
    case _ => true
  }

  ghost predicate PoolOK(st: State) {
    forall key | key in st.pool :: st.pool[key] < |st.dbs| && st.dbs[st.pool[key]] == Db(key, true, false)
  }

  ghost predicate PhasesOK(st: State) { forall t | 0 <= t < |st.threads| :: PhaseOK(st, st.threads[t]) }

  /** A database has one owner at most, and none once it is pooled. */
  ghost predicate OwnersOK(st: State) {
    && (forall t, d | 0 <= t < |st.threads| && Owns(st.threads[t], d) :: d !in st.pool.Values)
    && (forall t, u, d | 0 <= t < u < |st.threads| && Owns(st.threads[t], d) :: !Owns(st.threads[u], d))
  }

  /** Databases are pooled under their own key, owned by one query, abandoned, or closed. */
  ghost predicate Inv(st: State) {
    && PoolOK(st) && PhasesOK(st) && OwnersOK(st)
    && forall d | 0 <= d < |st.dbs| && st.dbs[d].open && !st.dbs[d].abandoned :: Pooled(st, d) || Owned(st, d)
  }

  lemma PoolGrows(st: State, t: nat, a: Action)
    requires Step(st, t, a).Some?
    ensures forall key | key in st.pool :: key in Step(st, t, a).value.pool && Step(st, t, a).value.pool[key] == st.pool[key]
  {
  }

  lemma PoolStays(st: State, t: nat, a: Action)
    requires PoolOK(st) && PhasesOK(st) && OwnersOK(st) && Step(st, t, a).Some?
    ensures PoolOK(Step(st, t, a).value)
    ensures forall key | key in st.pool :: key in Step(st, t, a).value.pool && Step(st, t, a).value.pool[key] == st.pool[key]
  {
    PoolGrows(st, t, a);
    var ph := st.threads[t];
    assert PhaseOK(st, ph);
    if ph.Opened? || ph.Discarding? {
      assert Owns(ph, ph.db);
      assert forall key | key in st.pool :: st.pool[key] in st.pool.Values;
    }
  }

  lemma PhasesStay(st: State, t: nat, a: Action)
    requires PoolOK(st) && PhasesOK(st) && OwnersOK(st) && Step(st, t, a).Some?
    ensures PhasesOK(Step(st, t, a).value)
  {
    var st' := Step(st, t, a).value;
    var ph := st.threads[t];
    PoolStays(st, t, a);
    assert PhaseOK(st, ph);
    forall i | 0 <= i < |st'.threads| ensures PhaseOK(st', st'.threads[i]) {
      assert PhaseOK(st, st.threads[i]);
      if i != t && (ph.Opened? || ph.Discarding?) {
        assert Owns(ph, ph.db) && !Owns(st.threads[i], ph.db);
      }
      if ph.Opened? && ph.key in st.pool {
        assert st.pool[ph.key] in st.pool.Values;
      }
    }
  }

  lemma OwnersStay(st: State, t: nat, a: Action)
    requires PoolOK(st) && PhasesOK(st) && OwnersOK(st) && Step(st, t, a).Some?
    ensures OwnersOK(Step(st, t, a).value)
  {
    var st' := Step(st, t, a).value;
    assert PhaseOK(st, st.threads[t]);
    forall i, d | 0 <= i < |st'.threads| && Owns(st'.threads[i], d)
      ensures d !in st'.pool.Values && forall u | 0 <= u < |st'.threads| && u != i :: !Owns(st'.threads[u], d)
    {
      OwnerStays(st, t, a, i, d);
    }
  }

  lemma NewValues(pool: map<string, nat>, key: string, db: nat)
    ensures pool[key := db].Values <= pool.Values + {db}
  {
  }

  lemma OwnerStays(st: State, t: nat, a: Action, i: nat, d: nat)
    requires PoolOK(st) && PhasesOK(st) && OwnersOK(st) && Step(st, t, a).Some?
    requires var st' := Step(st, t, a).value; i < |st'.threads| && Owns(st'.threads[i], d)
    ensures var st' := Step(st, t, a).value;
            d !in st'.pool.Values && forall u | 0 <= u < |st'.threads| && u != i :: !Owns(st'.threads[u], d)
  {
    var st' := Step(st, t, a).value;
    var ph := st.threads[t];
    assert PhaseOK(st, ph) && PhaseOK(st, st.threads[i]);
    if ph.Opened? && a.Recheck? && i != t {
      NewValues(st.pool, ph.key, ph.db);
      assert Owns(ph, ph.db) && !Owns(st.threads[i], ph.db);
    }
    if d >= |st.dbs| {
      forall u | 0 <= u < |st'.threads| && u != i ensures !Owns(st'.threads[u], d) {
        assert PhaseOK(st, st.threads[u]);
      }
    } else {
      assert Owns(st.threads[i], d);
      forall u | 0 <= u < |st'.threads| && u != i ensures !Owns(st'.threads[u], d) {
        assert !Owns(st.threads[u], d);
      }
    }
  }

  lemma StepKeeps(st: State, t: nat, a: Action)
    requires Inv(st) && Step(st, t, a).Some?
    ensures Inv(Step(st, t, a).value)
    ensures forall key | key in st.pool :: key in Step(st, t, a).value.pool && Step(st, t, a).value.pool[key] == st.pool[key]
  {
    PoolStays(st, t, a);
    PhasesStay(st, t, a);
    OwnersStay(st, t, a);
    var st' := Step(st, t, a).value;
    forall d | 0 <= d < |st'.dbs| && st'.dbs[d].open && !st'.dbs[d].abandoned ensures Pooled(st', d) || Owned(st', d) {
      StaysOwned(st, t, a, d);
    }
    hide Step, PoolOK, PhasesOK, OwnersOK, Owned, Pooled;
  }

  lemma StaysOwned(st: State, t: nat, a: Action, d: nat)
    requires Inv(st) && Step(st, t, a).Some?
    requires var st' := Step(st, t, a).value; d < |st'.dbs| && st'.dbs[d].open && !st'.dbs[d].abandoned
    ensures var st' := Step(st, t, a).value; Pooled(st', d) || Owned(st', d)
  {
    var st' := Step(st, t, a).value;
    assert PhaseOK(st, st.threads[t]);
    if d >= |st.dbs| {
      assert Owns(st'.threads[t], d);
    } else if !Pooled(st, d) {
      var i :| 0 <= i < |st.threads| && Owns(st.threads[i], d);
      if i != t {
        assert Owns(st'.threads[i], d);
      } else if a.Recheck? && st.threads[t].key in st.pool {
        assert Owns(st'.threads[t], d);
      }
    }
  }

  lemma {:induction false} RunKeeps(st: State, run: seq<(nat, Action)>, end: State)
    requires Inv(st) && Reaches(st, run, end)
    ensures Inv(end)
    ensures forall key | key in st.pool :: key in end.pool && end.pool[key] == st.pool[key]
    decreases |run|
  {
    hide Inv, Step;
    if run != [] {
      StepKeeps(st, run[0].0, run[0].1);
      RunKeeps(Step(st, run[0].0, run[0].1).value, run[1..], end);
    }
  }

  /** One connection for each key, for ever: two queries that have got a connection for a
      key, now or later in the run, have got the same one. */
  lemma OneConnectionPerKey(queries: nat, run: seq<(nat, Action)>, now: State, more: seq<(nat, Action)>, later: State,
                            t: nat, u: nat)
    requires Reaches(Initial(queries), run, now) && Reaches(now, more, later)
    requires t < |now.threads| && now.threads[t].Got? && u < |later.threads| && later.threads[u].Got?
    requires now.threads[t].key == later.threads[u].key
    ensures now.threads[t].conn == later.threads[u].conn
  {
    RunKeeps(Initial(queries), run, now);
    RunKeeps(now, more, later);
    assert PhaseOK(now, now.threads[t]) && PhaseOK(later, later.threads[u]);
  }

  /** When no query is under way, every open database is pooled, unless it has been
      abandoned: that one stays open outside of the pool, as far as the pool can tell. */
  lemma OpenMeansPooled(queries: nat, run: seq<(nat, Action)>, end: State, d: nat)
    requires Reaches(Initial(queries), run, end) && d < |end.dbs| && forall t | 0 <= t < |end.threads| :: end.threads[t].Idle?
    ensures end.dbs[d].open <==> Pooled(end, d) || end.dbs[d].abandoned
  {
    RunKeeps(Initial(queries), run, end);
    AbandonedStaysOpen(Initial(queries), run, end, d);
  }

  ghost predicate AbandonedOpen(st: State) {
    && (forall d | 0 <= d < |st.dbs| && st.dbs[d].abandoned :: st.dbs[d].open && !Owned(st, d))
  }

  lemma AbandonedKept(st: State, t: nat, a: Action)
    requires Inv(st) && AbandonedOpen(st) && Step(st, t, a).Some?
    ensures AbandonedOpen(Step(st, t, a).value)
  {
    var st' := Step(st, t, a).value;
    assert PhaseOK(st, st.threads[t]);
    forall d | 0 <= d < |st'.dbs| && st'.dbs[d].abandoned ensures st'.dbs[d].open && !Owned(st', d) {
      forall i | 0 <= i < |st'.threads| ensures !Owns(st'.threads[i], d) {
        assert PhaseOK(st, st.threads[i]);
      }
    }
  }

  lemma {:induction false} AbandonedStaysOpen(st: State, run: seq<(nat, Action)>, end: State, d: nat)
    requires Inv(st) && AbandonedOpen(st) && Reaches(st, run, end) && d < |end.dbs|
    ensures end.dbs[d].abandoned ==> end.dbs[d].open
    decreases |run|
  {
    hide Inv, Step, Owned;
    if run != [] {
      var next := Step(st, run[0].0, run[0].1).value;
      StepKeeps(st, run[0].0, run[0].1);
      AbandonedKept(st, run[0].0, run[0].1);
      AbandonedStaysOpen(next, run[1..], end, d);
    }
  }

  /** That case does arise: the second look finds no connection, the cache cannot be
      created, and the query ends with a database that is open and that nobody has. */
  lemma AbandonedInitially()
    ensures var run := [(0, Get("key")), (0, Lookup), (0, Open(true)), (0, Recheck(false))];
            var end := State([Db("key", true, true)], map[], [Idle]);
            Reaches(Initial(1), run, end) && end.dbs[0].open && !Pooled(end, 0) && forall t | 0 <= t < |end.threads| :: end.threads[t].Idle?
  {
    var run: seq<(nat, Action)> := [(0, Get("key")), (0, Lookup), (0, Open(true)), (0, Recheck(false))];
    var asked := State([], map[], [Asking("key")]);
    var opening := State([], map[], [Opening("key")]);
    var hasOpened := State([Db("key", true, false)], map[], [Opened("key", 0)]);
    var end := State([Db("key", true, true)], map[], [Idle]);
    assert Initial(1) == State([], map[], [Idle]);
    assert [Idle][0 := Asking("key")] == asked.threads && asked.threads[0 := Opening("key")] == opening.threads;
    assert opening.threads[0 := Opened("key", 0)] == hasOpened.threads && [] + [Db("key", true, false)] == hasOpened.dbs;
    assert hasOpened.threads[0 := Idle] == end.threads && hasOpened.dbs[0 := Db("key", true, true)] == end.dbs;
    assert Step(Initial(1), 0, Get("key")) == Some(asked) && Step(asked, 0, Lookup) == Some(opening);
    assert Step(opening, 0, Open(true)) == Some(hasOpened) && Step(hasOpened, 0, Recheck(false)) == Some(end);
    assert Reaches(end, [], end);
    assert run[3..] == [run[3]] && run[3..][1..] == [] && Reaches(hasOpened, run[3..], end);
    assert run[2..][1..] == run[3..] && Reaches(opening, run[2..], end);
    assert run[1..][1..] == run[2..] && Reaches(asked, run[1..], end);
  }

  // ---- Each query has a connection for its own key ----

  /** The key that query `t` has asked for last, read off the run. */
  function Asked(run: seq<(nat, Action)>, t: nat): Option<string> {
    if run == [] then None
    else
      var last := run[|run| - 1];
      if last.0 == t && last.1.Get? then Some(last.1.key) else Asked(run[..|run| - 1], t)
  }

  lemma StepAsked(st: State, t: nat, a: Action, i: nat)
    requires Step(st, t, a).Some? && i < |st.threads|
    ensures var ph, ph' := st.threads[i], Step(st, t, a).value.threads[i];
            !ph'.Idle? ==> if i == t && a.Get? then ph'.key == a.key else !ph.Idle? && ph'.key == ph.key
  {
  }

  lemma SameQueries(st: State, t: nat, a: Action)
    requires Step(st, t, a).Some?
    ensures |Step(st, t, a).value.threads| == |st.threads|
  {
  }

  lemma {:induction false} LastStep(st: State, run: seq<(nat, Action)>, end: State) returns (mid: State)
    requires run != [] && Reaches(st, run, end)
    ensures var last := run[|run| - 1];
            Reaches(st, run[..|run| - 1], mid) && Step(mid, last.0, last.1) == Some(end)
    decreases |run|
  {
    hide Step;
    var next := Step(st, run[0].0, run[0].1).value;
    if |run| == 1 {
      assert run[1..] == [] && run[..0] == [];
      return st;
    }
    mid := LastStep(next, run[1..], end);
    var init := run[..|run| - 1];
    assert run[1..][..|run| - 2] == init[1..] && init[0] == run[0] && run[1..][|run| - 2] == run[|run| - 1];
    assert Reaches(st, init, mid);
  }

  lemma {:induction false} RunAsks(queries: nat, run: seq<(nat, Action)>, end: State, t: nat)
    requires Reaches(Initial(queries), run, end) && t < |end.threads|
    ensures !end.threads[t].Idle? ==> Asked(run, t) == Some(end.threads[t].key)
    decreases |run|
  {
    hide Step;
    if run != [] {
      var mid := LastStep(Initial(queries), run, end);
      var last := run[|run| - 1];
      SameQueries(mid, last.0, last.1);
      StepAsked(mid, last.0, last.1, t);
      RunAsks(queries, run[..|run| - 1], mid, t);
    }
  }

  /** A query that has got a connection has an open database for the key it asked for. */
  lemma ConnectionsHaveTheirKey(queries: nat, run: seq<(nat, Action)>, end: State, t: nat)
    requires Reaches(Initial(queries), run, end) && t < |end.threads| && end.threads[t].Got?
    ensures var d := end.threads[t].conn;
            d < |end.dbs| && Asked(run, t) == Some(end.dbs[d].key) && end.dbs[d].open
  {
    RunAsks(queries, run, end, t);
    RunKeeps(Initial(queries), run, end);
    assert PhaseOK(end, end.threads[t]);
    hide Asked, Reaches, OwnersOK;
  }

  /** A query whose key is pooled gets the pooled connection and opens none. */
  lemma PooledIsUsed(st: State, t: nat, key: string)
    requires t < |st.threads| && st.threads[t].Idle? && key in st.pool
    ensures var asked := Step(st, t, Get(key));
            && asked.Some?
            && var got := Step(asked.value, t, Lookup);
               got == Some(st.(threads := st.threads[t := Got(key, st.pool[key])]))
  {
    var asked := Step(st, t, Get(key)).value;
    assert asked.threads[t := Got(key, st.pool[key])] == st.threads[t := Got(key, st.pool[key])];
  }
}
