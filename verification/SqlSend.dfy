/** Prepared statements shared between concurrent queries: a bounded cache of statements,
    a count of active users for each, and a close that waits for the last of them. The
    interleaving of the queries' steps is arbitrary. */
module PreparedStatements {
  import opened ByteCodec

  // ---- One statement ----

  /** A statement: the text it was prepared for, active users, whether it is marked closed,
      whether its handle is still there (stmt != nil), and how often that has been closed. */
  datatype Stmt = Stmt(text: string, active: int, closed: bool, handle: bool, closes: nat)

  function Acquired(s: Stmt, n: int): (Stmt, bool) {
    if s.closed then (s, false) else (s.(active := s.active + n), true)
  }

  /** What Release does under the lock, and whether it takes the handle to close it. */
  function Released(s: Stmt, n: int, close: bool): (Stmt, bool) {
    var active, closed := s.active - n, s.closed || close;
    if closed && active == 0 then (s.(active := active, closed := closed, handle := false), s.handle)
    else (s.(active := active, closed := closed), false)
  }

  class DatabaseStmt {
    const text: string
    var active: int
    var closed: bool
    var stmt: bool
    var closes: nat

    ghost function Now(): Stmt
      reads this
    {
      Stmt(text, active, closed, stmt, closes)
    }

    /** A statement that has been prepared. */
    constructor (text: string)
      ensures Now() == Stmt(text, 0, false, true, 0)
    {
      this.text := text;
      active, closed, stmt, closes := 0, false, true, 0;
    }

    method Acquire(n: int) returns (ok: bool)
      modifies this
      ensures (Now(), ok) == Acquired(old(Now()), n)
    {
      if closed {
        return false;
      }
      active := active + n;
      return true;
    }

    /** The locked part of Release; the caller closes the handle afterwards. */
    method Release(n: int, close: bool) returns (closeStmt: bool)
      modifies this
      ensures (Now(), closeStmt) == Released(old(Now()), n, close)
    {
      closeStmt := false;
      active := active - n;
      if close {
        closed := true;
      }
      if closed && active == 0 {
        closeStmt := stmt;
        stmt := false;
      }
    }
  }

  // ---- Queries and their steps ----

  /** Where a query stands between two of its steps. */
  datatype Phase =
    | Idle
    | Retry(query: string)
    | Looked(query: string, stmt: nat)
    | Missed(query: string)
    | Prepared(query: string, stmt: nat)
    | Rejected(query: string, stmt: nat)
    | Evicting(query: string, stmt: nat, victim: nat)
    | Holding(query: string, stmt: nat)
    | Closing(handle: nat, next: Phase)

  datatype State = State(stmts: seq<Stmt>, cache: map<string, nat>, threads: seq<Phase>, capacity: nat)

  datatype Action =
    | Start(query: string)
    | GiveUp
    | Lookup
    | Acquire
    | Prepare(works: bool)
    | PeekOrAdd(oldest: string)
    | Callback
    | Reject
    | Query
    | Finish
    | Close

  function After(closing: bool, s: nat, next: Phase): Phase { if closing then Closing(s, next) else next }

  /** The query goes on to `next`. */
  function Moved(st: State, t: nat, next: Phase): State
    requires t < |st.threads|
  {
    st.(threads := st.threads[t := next])
  }

  /** Release of statement `s`, after which the query goes on to `next`. */
  function Releases(st: State, t: nat, s: nat, n: int, close: bool, next: Phase): State
    requires t < |st.threads| && s < |st.stmts|
  {
    var r := Released(st.stmts[s], n, close);
    Moved(st.(stmts := st.stmts[s := r.0]), t, After(r.1, s, next))
  }

  /** One step of query `t`, or None if the query is not there or its data is missing. */
  function Step(st: State, t: nat, a: Action): Option<State> {
    if t >= |st.threads| then None
    else
      var ph := st.threads[t];
      match a
      case Start(query) => if ph.Idle? then Some(Moved(st, t, Retry(query))) else None
      case GiveUp => if ph.Retry? then Some(Moved(st, t, Idle)) else None
      case Lookup =>
        if !ph.Retry? then None
        else if ph.query in st.cache then Some(Moved(st, t, Looked(ph.query, st.cache[ph.query])))
        else Some(Moved(st, t, Missed(ph.query)))
      case Acquire =>
        if !ph.Looked? || ph.stmt >= |st.stmts| then None
        else
          var r := Acquired(st.stmts[ph.stmt], 1);
          Some(Moved(st.(stmts := st.stmts[ph.stmt := r.0]), t, if r.1 then Holding(ph.query, ph.stmt) else Missed(ph.query)))
      case Prepare(works) =>
        if !ph.Missed? then None
        else if !works then Some(Moved(st, t, Idle))
        else
          var s := Acquired(Stmt(ph.query, 0, false, true, 0), 1).0;
          Some(Moved(st.(stmts := st.stmts + [s]), t, Prepared(ph.query, |st.stmts|)))
      case PeekOrAdd(oldest) => if ph.Prepared? then Added(st, t, ph.query, ph.stmt, oldest) else None
      case Callback =>
        if !ph.Evicting? || ph.victim >= |st.stmts| then None
        else Some(Releases(st, t, ph.victim, 0, true, Holding(ph.query, ph.stmt)))
      case Reject =>
        if !ph.Rejected? || ph.stmt >= |st.stmts| then None
        else Some(Releases(st, t, ph.stmt, 1, true, Retry(ph.query)))
      case Query => if ph.Holding? then Some(st) else None
      case Finish =>
        if !ph.Holding? || ph.stmt >= |st.stmts| then None
        else Some(Releases(st, t, ph.stmt, 1, false, Idle))
      case Close =>
        if !ph.Closing? || ph.handle >= |st.stmts| then None
        else
          var s := st.stmts[ph.handle];
          Some(Moved(st.(stmts := st.stmts[ph.handle := s.(closes := s.closes + 1)]), t, ph.next))
  }

  /** PeekOrAdd: a statement that is cached already stays; otherwise the new one is
      added, and if the cache is full the oldest one makes room. */
  function Added(st: State, t: nat, query: string, s: nat, oldest: string): Option<State>
    requires t < |st.threads|
  {
    if query in st.cache then Some(Moved(st, t, Rejected(query, s)))
    else if |st.cache| < st.capacity then Some(Moved(st.(cache := st.cache[query := s]), t, Holding(query, s)))
    else if oldest !in st.cache then None
    else Some(Moved(st.(cache := (st.cache - {oldest})[query := s]), t, Evicting(query, s, st.cache[oldest])))
  }

  function Initial(queries: nat, capacity: nat): State {
    State([], map[], seq(queries, i => Idle), capacity)
  }

  /** The state after a run of steps. */
  ghost predicate Reaches(st: State, run: seq<(nat, Action)>, end: State)
    decreases |run|
  {
    if run == [] then st == end
    else
      var next := Step(st, run[0].0, run[0].1);
      next.Some? && Reaches(next.value, run[1..], end)
  }

  // ---- Who is doing what with a statement ----

  datatype Role = Holder | Closer | Awaiter | Owner

  /** A holder counts as active; a closer has taken the handle; an awaiter has evicted
      the statement but not yet told it; an owner has prepared it but not cached it. */
  predicate Plays(ph: Phase, role: Role, s: nat) {
    match ph
    case Prepared(_, x) => (role.Holder? || role.Owner?) && x == s
    case Rejected(_, x) => (role.Holder? || role.Owner?) && x == s
    case Evicting(_, x, v) => (role.Holder? && x == s) || (role.Awaiter? && v == s)
    case Holding(_, x) => role.Holder? && x == s
    case Closing(x, next) => (role.Closer? && x == s) || Plays(next, role, s)
    case _ => false
  }

  function One(b: bool): nat { if b then 1 else 0 }

  function Count(ts: seq<Phase>, role: Role, s: nat): nat {
    if ts == [] then 0 else Count(ts[..|ts| - 1], role, s) + One(Plays(ts[|ts| - 1], role, s))
  }

  lemma {:induction false} CountMoved(ts: seq<Phase>, t: nat, ph: Phase, role: Role, s: nat)
    requires t < |ts|
    ensures Count(ts[t := ph], role, s) == Count(ts, role, s) - One(Plays(ts[t], role, s)) + One(Plays(ph, role, s))
    ensures Plays(ts[t], role, s) ==> Count(ts, role, s) >= 1
  {
    hide Plays;
    var n := |ts| - 1;
    if t < n {
      assert ts[t := ph][..n] == ts[..n][t := ph];
      CountMoved(ts[..n], t, ph, role, s);
    } else {
      assert ts[t := ph][..n] == ts[..n];
    }
  }

  /** Phases name statements that exist. */
  predicate Named(ph: Phase, n: nat) {
    match ph
    case Looked(_, x) => x < n
    case Prepared(_, x) => x < n
    case Rejected(_, x) => x < n
    case Evicting(_, x, v) => x < n && v < n && x != v
    case Holding(_, x) => x < n
    case Closing(x, next) => x < n && Named(next, n) && !next.Closing?
    case _ => true
  }

  ghost predicate Cached(st: State, s: nat) { exists q :: q in st.cache && st.cache[q] == s }

  /** The state of one statement, given how many queries play which role for it. */
  ghost predicate StmtOK(x: Stmt, cached: bool, holders: nat, closers: nat, awaiters: nat, owners: nat) {
    && x.active == holders
    && (x.handle <==> !(x.closed && x.active == 0))
    && One(x.handle) + closers + x.closes == 1
    && One(cached) + awaiters + owners + One(x.closed) == 1
  }

  ghost predicate Fits(st: State, s: nat)
    requires s < |st.stmts|
  {
    StmtOK(st.stmts[s], Cached(st, s), Count(st.threads, Holder, s), Count(st.threads, Closer, s),
           Count(st.threads, Awaiter, s), Count(st.threads, Owner, s))
  }

  /** Each statement is cached for one query at most. */
  ghost predicate CacheOK(cache: map<string, nat>, n: nat) {
    && (forall q | q in cache :: cache[q] < n)
    && (forall q, r | q in cache && r in cache && cache[q] == cache[r] :: q == r)
  }

  ghost predicate Inv(st: State) {
    && (forall t | 0 <= t < |st.threads| :: Named(st.threads[t], |st.stmts|))
    && CacheOK(st.cache, |st.stmts|)
    && (forall s | 0 <= s < |st.stmts| :: Fits(st, s))
    && |st.cache| <= st.capacity && st.capacity > 0
  }

  // ---- Every step keeps the invariant ----

  lemma {:induction false} NoneYet(ts: seq<Phase>, role: Role, s: nat)
    requires forall t | 0 <= t < |ts| :: Named(ts[t], s)
    ensures Count(ts, role, s) == 0
  {
    if ts != [] {
      NoneYet(ts[..|ts| - 1], role, s);
      NamedPlays(ts[|ts| - 1], role, s);
    }
  }

  lemma NamedPlays(ph: Phase, role: Role, s: nat)
    requires Named(ph, s)
    ensures !Plays(ph, role, s)
  {
  }

  lemma NamedMore(ph: Phase, n: nat, m: nat)
    requires Named(ph, n) && n <= m
    ensures Named(ph, m)
  {
  }

  /** A query has moved on: what that means for one statement. */
  lemma CountsMoved(ts: seq<Phase>, t: nat, ph: Phase, s: nat)
    requires t < |ts|
    ensures forall role :: Count(ts[t := ph], role, s) == Count(ts, role, s) - One(Plays(ts[t], role, s)) + One(Plays(ph, role, s))
    ensures forall role :: Plays(ts[t], role, s) ==> Count(ts, role, s) >= 1
  {
    forall role
      ensures Count(ts[t := ph], role, s) == Count(ts, role, s) - One(Plays(ts[t], role, s)) + One(Plays(ph, role, s))
      ensures Plays(ts[t], role, s) ==> Count(ts, role, s) >= 1
    {
      CountMoved(ts, t, ph, role, s);
    }
  }

  /** The query changes its phase and perhaps one statement, but not the cache. */
  lemma MovedKeeps(st: State, t: nat, next: Phase, s0: nat, x: Stmt)
    requires Inv(st) && t < |st.threads| && Named(next, |st.stmts|)
    requires s0 < |st.stmts| || st.stmts == []
    requires forall s | 0 <= s < |st.stmts| ::
               var ph, y := st.threads[t], if s == s0 then x else st.stmts[s];
               && y.active - st.stmts[s].active == One(Plays(next, Holder, s)) - One(Plays(ph, Holder, s))
               && One(y.handle) + y.closes + One(Plays(next, Closer, s)) ==
                  One(st.stmts[s].handle) + st.stmts[s].closes + One(Plays(ph, Closer, s))
               && One(y.closed) + One(Plays(next, Awaiter, s)) + One(Plays(next, Owner, s)) ==
                  One(st.stmts[s].closed) + One(Plays(ph, Awaiter, s)) + One(Plays(ph, Owner, s))
               && (y.handle <==> !(y.closed && y.active == 0))
    ensures st.stmts == [] ==> Inv(Moved(st, t, next))
    ensures st.stmts != [] ==> Inv(Moved(st.(stmts := st.stmts[s0 := x]), t, next))
  {
    hide Plays, Count;
    var st' := if st.stmts == [] then Moved(st, t, next) else Moved(st.(stmts := st.stmts[s0 := x]), t, next);
    forall s | 0 <= s < |st.stmts| ensures Fits(st', s) {
      CountsMoved(st.threads, t, next, s);
      assert Fits(st, s);
      assert Cached(st', s) <==> Cached(st, s);
    }
    forall i | 0 <= i < |st'.threads| ensures Named(st'.threads[i], |st'.stmts|) {
      assert i != t ==> st'.threads[i] == st.threads[i];
    }
  }

  lemma StmtFits(st: State, s: nat)
    requires Inv(st) && s < |st.stmts|
    ensures st.stmts[s].handle <==> !(st.stmts[s].closed && st.stmts[s].active == 0)
  {
    assert Fits(st, s);
  }

  /** The query changes its phase only, and plays the same roles as before. */
  lemma JustMoved(st: State, t: nat, next: Phase)
    requires Inv(st) && t < |st.threads| && Named(next, |st.stmts|)
    requires forall role, s :: Plays(next, role, s) == Plays(st.threads[t], role, s)
    ensures Inv(Moved(st, t, next))
  {
    hide Plays, Inv;
    if st.stmts == [] {
      MovedKeeps(st, t, next, 0, Stmt("", 0, false, false, 0));
    } else {
      forall s | 0 <= s < |st.stmts| ensures st.stmts[s].handle <==> !(st.stmts[s].closed && st.stmts[s].active == 0) {
        StmtFits(st, s);
      }
      MovedKeeps(st, t, next, 0, st.stmts[0]);
      assert st.stmts[0 := st.stmts[0]] == st.stmts;
    }
  }

  lemma ThreadNamed(st: State, t: nat)
    requires Inv(st) && t < |st.threads|
    ensures Named(st.threads[t], |st.stmts|)
  {
  }

  lemma CachedStmt(st: State, q: string)
    requires Inv(st) && q in st.cache
    ensures st.cache[q] < |st.stmts| && !st.stmts[st.cache[q]].closed
  {
    assert Cached(st, st.cache[q]) && Fits(st, st.cache[q]);
  }

  lemma AcquireKeeps(st: State, t: nat)
    requires Inv(st) && Step(st, t, Acquire).Some?
    ensures Inv(Step(st, t, Acquire).value)
  {
    ThreadNamed(st, t);
    var ph := st.threads[t];
    var r := Acquired(st.stmts[ph.stmt], 1);
    var next := if r.1 then Holding(ph.query, ph.stmt) else Missed(ph.query);
    forall s | 0 <= s < |st.stmts| ensures st.stmts[s].handle <==> !(st.stmts[s].closed && st.stmts[s].active == 0) {
      StmtFits(st, s);
    }
    hide Inv;
    MovedKeeps(st, t, next, ph.stmt, r.0);
  }

  lemma HolderIsActive(st: State, t: nat, s: nat)
    requires Inv(st) && t < |st.threads| && s < |st.stmts|
    ensures One(Plays(st.threads[t], Holder, s)) <= st.stmts[s].active
  {
    CountMoved(st.threads, t, Idle, Holder, s);
    assert Fits(st, s);
  }

  /** Releasing a statement, in the three ways the queries do it. */
  lemma ReleaseKeeps(st: State, t: nat, s: nat, n: int, close: bool, next: Phase)
    requires Inv(st) && t < |st.threads| && s < |st.stmts| && Named(next, |st.stmts|) && !next.Closing? && n >= 0
    requires var ph := st.threads[t];
             && n == One(Plays(ph, Holder, s)) - One(Plays(next, Holder, s))
             && One(close) == One(Plays(ph, Awaiter, s)) + One(Plays(ph, Owner, s))
             && !Plays(ph, Closer, s) && !Plays(next, Closer, s) && !Plays(next, Awaiter, s) && !Plays(next, Owner, s)
             && (close ==> !st.stmts[s].closed)
             && forall x, role | x != s :: Plays(next, role, x) == Plays(ph, role, x)
    ensures Inv(Releases(st, t, s, n, close, next))
  {
    hide Inv, Plays, Count, Fits;
    var r := Released(st.stmts[s], n, close);
    forall x | 0 <= x < |st.stmts| ensures st.stmts[x].handle <==> !(st.stmts[x].closed && st.stmts[x].active == 0) {
      StmtFits(st, x);
    }
    HolderIsActive(st, t, s);
    AfterPlays(r.1, s, next);
    MovedKeeps(st, t, After(r.1, s, next), s, r.0);
  }

  lemma AfterPlays(closing: bool, s: nat, next: Phase)
    requires !next.Closing?
    ensures forall role, x :: Plays(After(closing, s, next), role, x) == (Plays(next, role, x) || (closing && role.Closer? && x == s))
    ensures forall n | s < n && Named(next, n) :: Named(After(closing, s, next), n)
  {
  }

  /** A private or evicted statement is not marked closed yet. */
  lemma NotClosedYet(st: State, t: nat, role: Role, s: nat)
    requires Inv(st) && t < |st.threads| && s < |st.stmts| && Plays(st.threads[t], role, s) && (role.Owner? || role.Awaiter?)
    ensures !st.stmts[s].closed && !Cached(st, s)
    ensures Count(st.threads, role, s) == 1
  {
    CountMoved(st.threads, t, Idle, role, s);
    assert Fits(st, s);
  }

  lemma CallbackKeeps(st: State, t: nat)
    requires Inv(st) && Step(st, t, Callback).Some?
    ensures Inv(Step(st, t, Callback).value)
  {
    ThreadNamed(st, t);
    var ph := st.threads[t];
    NotClosedYet(st, t, Awaiter, ph.victim);
    hide Inv;
    ReleaseKeeps(st, t, ph.victim, 0, true, Holding(ph.query, ph.stmt));
  }

  lemma RejectKeeps(st: State, t: nat)
    requires Inv(st) && Step(st, t, Reject).Some?
    ensures Inv(Step(st, t, Reject).value)
  {
    ThreadNamed(st, t);
    var ph := st.threads[t];
    NotClosedYet(st, t, Owner, ph.stmt);
    hide Inv;
    ReleaseKeeps(st, t, ph.stmt, 1, true, Retry(ph.query));
  }

  lemma FinishKeeps(st: State, t: nat)
    requires Inv(st) && Step(st, t, Finish).Some?
    ensures Inv(Step(st, t, Finish).value)
  {
    ThreadNamed(st, t);
    hide Inv;
    ReleaseKeeps(st, t, st.threads[t].stmt, 1, false, Idle);
  }

  lemma CloseKeeps(st: State, t: nat)
    requires Inv(st) && Step(st, t, Close).Some?
    ensures Inv(Step(st, t, Close).value)
  {
    ThreadNamed(st, t);
    var ph := st.threads[t];
    var x := st.stmts[ph.handle];
    forall s | 0 <= s < |st.stmts| ensures st.stmts[s].handle <==> !(st.stmts[s].closed && st.stmts[s].active == 0) {
      StmtFits(st, s);
    }
    hide Inv;
    MovedKeeps(st, t, ph.next, ph.handle, x.(closes := x.closes + 1));
  }

  lemma PrepareKeeps(st: State, t: nat)
    requires Inv(st) && Step(st, t, Prepare(true)).Some?
    ensures Inv(Step(st, t, Prepare(true)).value)
  {
    hide Count, Plays, Fits, Named, CacheOK;
    var ph, n := st.threads[t], |st.stmts|;
    var st' := Step(st, t, Prepare(true)).value;
    assert st'.stmts == st.stmts + [Stmt(st.threads[t].query, 1, false, true, 0)] && st'.cache == st.cache;
    forall s: nat | s < n ensures Fits(st', s) {
      OldStmtFits(st, t, st', s);
    }
    NewStmtFits(st, t, st');
    forall i | 0 <= i < |st'.threads| ensures Named(st'.threads[i], n + 1) {
      PreparedNamed(st, t, i);
    }
    MoreCacheOK(st.cache, n);
  }

  lemma OldStmtFits(st: State, t: nat, st': State, s: nat)
    requires Inv(st) && t < |st.threads| && st.threads[t].Missed? && s < |st.stmts|
    requires st'.stmts == st.stmts + [Stmt(st.threads[t].query, 1, false, true, 0)] && st'.cache == st.cache
    requires st'.threads == st.threads[t := Prepared(st.threads[t].query, |st.stmts|)]
    ensures Fits(st', s)
  {
    hide Count, Plays, Named, CacheOK;
    CountsMoved(st.threads, t, Prepared(st.threads[t].query, |st.stmts|), s);
    PreparedPlays(st.threads[t].query, |st.stmts|, s);
    assert Fits(st, s);
    assert Cached(st', s) <==> Cached(st, s);
  }

  lemma PreparedNamed(st: State, t: nat, i: nat)
    requires Inv(st) && t < |st.threads| && i < |st.threads|
    ensures Named(st.threads[t := Prepared(if st.threads[t].Missed? then st.threads[t].query else "", |st.stmts|)][i], |st.stmts| + 1)
  {
    hide Fits, CacheOK;
    if i != t {
      NamedMore(st.threads[i], |st.stmts|, |st.stmts| + 1);
    }
  }

  lemma MoreCacheOK(cache: map<string, nat>, n: nat)
    requires CacheOK(cache, n)
    ensures CacheOK(cache, n + 1)
  {
  }

  lemma NewStmtFits(st: State, t: nat, st': State)
    requires Inv(st) && t < |st.threads| && st.threads[t].Missed?
    requires st'.stmts == st.stmts + [Stmt(st.threads[t].query, 1, false, true, 0)] && st'.cache == st.cache
    requires st'.threads == st.threads[t := Prepared(st.threads[t].query, |st.stmts|)]
    ensures Fits(st', |st.stmts|)
  {
    hide Count;
    var n, ts, ph := |st.stmts|, st.threads, Prepared(st.threads[t].query, |st.stmts|);
    NoneYet(ts, Holder, n);
    NoneYet(ts, Closer, n);
    NoneYet(ts, Awaiter, n);
    NoneYet(ts, Owner, n);
    CountMoved(ts, t, ph, Holder, n);
    CountMoved(ts, t, ph, Closer, n);
    CountMoved(ts, t, ph, Awaiter, n);
    CountMoved(ts, t, ph, Owner, n);
    assert !Cached(st', n);
  }

  lemma PreparedPlays(q: string, n: nat, s: nat)
    ensures forall role :: Plays(Prepared(q, n), role, s) == (s == n && (role.Holder? || role.Owner?))
    ensures forall role :: !Plays(Missed(q), role, s)
  {
  }

  /** A new statement enters the cache; the evicted one waits for its callback. */
  lemma AddKeeps(st: State, t: nat, oldest: string)
    requires Inv(st) && Step(st, t, PeekOrAdd(oldest)).Some? && st.threads[t].query !in st.cache
    ensures Inv(Step(st, t, PeekOrAdd(oldest)).value)
  {
    hide Count, Plays, Fits, Cached, Inv;
    var ph := st.threads[t];
    ThreadNamed(st, t);
    PreparedOwns(st, t);
    var full := |st.cache| >= st.capacity;
    if full {
      CachedHere(st, oldest);
    }
    var next := if full then Evicting(ph.query, ph.stmt, st.cache[oldest]) else Holding(ph.query, ph.stmt);
    var cache := (if full then st.cache - {oldest} else st.cache)[ph.query := ph.stmt];
    var st' := Moved(st.(cache := cache), t, next);
    forall s | 0 <= s < |st.stmts| ensures Fits(st', s) {
      AddedFits(st, st', t, next, ph.query, ph.stmt, full, oldest, s);
    }
    AddedInv(st, st', t, next, ph.query, ph.stmt, full, oldest);
  }

  lemma PreparedOwns(st: State, t: nat)
    requires Inv(st) && t < |st.threads| && st.threads[t].Prepared?
    ensures var s := st.threads[t].stmt;
            s < |st.stmts| && !Cached(st, s) && Count(st.threads, Owner, s) == 1
  {
    ThreadNamed(st, t);
    NotClosedYet(st, t, Owner, st.threads[t].stmt);
  }

  lemma CachedHere(st: State, q: string)
    requires Inv(st) && q in st.cache
    ensures Cached(st, st.cache[q]) && st.cache[q] < |st.stmts|
  {
  }

  lemma AddedInv(st: State, st': State, t: nat, next: Phase, q: string, x: nat, full: bool, oldest: string)
    requires Inv(st) && t < |st.threads| && q !in st.cache && (full ==> oldest in st.cache) && x < |st.stmts|
    requires full <==> |st.cache| >= st.capacity
    requires !Cached(st, x) && Named(next, |st.stmts|)
    requires st' == Moved(st.(cache := (if full then st.cache - {oldest} else st.cache)[q := x]), t, next)
    requires forall s | 0 <= s < |st.stmts| :: Fits(st', s)
    ensures Inv(st')
  {
    hide Fits, CacheOK, Named;
    CacheAdded(st, if full then {oldest} else {}, q, x);
    assert st.cache - {} == st.cache;
    forall i | 0 <= i < |st'.threads| ensures Named(st'.threads[i], |st'.stmts|) {
      assert i != t ==> st'.threads[i] == st.threads[i];
    }
  }

  lemma CacheAdded(st: State, gone: set<string>, q: string, x: nat)
    requires CacheOK(st.cache, |st.stmts|) && x < |st.stmts| && !Cached(st, x) && q !in st.cache && gone <= st.cache.Keys
    ensures CacheOK((st.cache - gone)[q := x], |st.stmts|)
    ensures |(st.cache - gone)[q := x]| == |st.cache| - |gone| + 1
  {
    AddedSize(st.cache, gone, q, x);
    assert forall r | r in st.cache :: st.cache[r] != x;
  }

  lemma AddedSize(cache: map<string, nat>, gone: set<string>, q: string, s: nat)
    requires q !in cache && gone <= cache.Keys
    ensures |(cache - gone)[q := s]| == |cache| - |gone| + 1
  {
    assert (cache - gone).Keys == cache.Keys - gone;
    assert (cache - gone)[q := s].Keys == (cache.Keys - gone) + {q};
    assert |(cache - gone).Keys| == |cache.Keys| - |gone|;
  }

  lemma AddedFits(st: State, st': State, t: nat, next: Phase, q: string, x: nat, full: bool, oldest: string, s: nat)
    requires Inv(st) && t < |st.threads| && st.threads[t] == Prepared(q, x) && q !in st.cache && (full ==> oldest in st.cache)
    requires next == if full then Evicting(q, x, st.cache[oldest]) else Holding(q, x)
    requires st' == Moved(st.(cache := (if full then st.cache - {oldest} else st.cache)[q := x]), t, next)
    requires s < |st.stmts| && !Cached(st, x) && x < |st.stmts| && Count(st.threads, Owner, x) == 1
    ensures Fits(st', s)
  {
    hide Count;
    CountsMoved(st.threads, t, next, s);
    assert Fits(st, s);
    if s == x {
      assert st'.cache[q] == s;
    } else if full && s == st.cache[oldest] {
      assert !Cached(st', s);
    } else {
      if Cached(st, s) {
        var r :| r in st.cache && st.cache[r] == s;
        assert r in st'.cache && st'.cache[r] == s;
      }
      assert Cached(st', s) <==> Cached(st, s);
    }
  }

  lemma StepKeeps(st: State, t: nat, a: Action)
    requires Inv(st) && Step(st, t, a).Some?
    ensures Inv(Step(st, t, a).value)
  {
    hide Inv;
    match a
    case Start(query) => JustMoved(st, t, Retry(query));
    case GiveUp => JustMoved(st, t, Idle);
    case Lookup =>
      var q := st.threads[t].query;
      if q in st.cache {
        CachedStmt(st, q);
        JustMoved(st, t, Looked(q, st.cache[q]));
      } else {
        JustMoved(st, t, Missed(q));
      }
    case Acquire => AcquireKeeps(st, t);
    case Prepare(works) =>
      if works {
        PrepareKeeps(st, t);
      } else {
        JustMoved(st, t, Idle);
      }
    case PeekOrAdd(oldest) =>
      var ph := st.threads[t];
      ThreadNamed(st, t);
      if ph.query in st.cache {
        JustMoved(st, t, Rejected(ph.query, ph.stmt));
      } else {
        AddKeeps(st, t, oldest);
      }
    case Callback => CallbackKeeps(st, t);
    case Reject => RejectKeeps(st, t);
    case Query =>
    case Finish => FinishKeeps(st, t);
    case Close => CloseKeeps(st, t);
  }

  // ---- What holds in every run ----

  lemma InitialInv(queries: nat, capacity: nat)
    requires capacity > 0
    ensures Inv(Initial(queries, capacity))
  {
  }

  lemma {:induction false} RunKeeps(st: State, run: seq<(nat, Action)>, end: State)
    requires Inv(st) && Reaches(st, run, end)
    ensures Inv(end)
    decreases |run|
  {
    hide Inv;
    if run != [] {
      StepKeeps(st, run[0].0, run[0].1);
      RunKeeps(Step(st, run[0].0, run[0].1).value, run[1..], end);
    }
  }

  /** Wherever a run of any number of queries has come: the active count of a statement
      is the number of queries that hold it; a query that holds one finds its handle in
      place and never closed; a cached statement is not marked closed. */
  lemma HoldersAreSafe(queries: nat, capacity: nat, run: seq<(nat, Action)>, end: State)
    requires capacity > 0 && Reaches(Initial(queries, capacity), run, end)
    ensures forall s | 0 <= s < |end.stmts| :: end.stmts[s].active == Count(end.threads, Holder, s)
    ensures forall t | 0 <= t < |end.threads| && end.threads[t].Holding? ::
              var s := end.threads[t].stmt; s < |end.stmts| && end.stmts[s].handle && end.stmts[s].closes == 0
    ensures forall q | q in end.cache ::
              var s := end.cache[q]; s < |end.stmts| && !end.stmts[s].closed && end.stmts[s].handle && end.stmts[s].closes == 0
    ensures |end.cache| <= capacity
  {
    InitialInv(queries, capacity);
    RunKeeps(Initial(queries, capacity), run, end);
    CapacityStays(Initial(queries, capacity), run, end);
    forall s | 0 <= s < |end.stmts| ensures end.stmts[s].active == Count(end.threads, Holder, s) {
      assert Fits(end, s);
    }
    forall t | 0 <= t < |end.threads| && end.threads[t].Holding?
      ensures var s := end.threads[t].stmt; s < |end.stmts| && end.stmts[s].handle && end.stmts[s].closes == 0
    {
      assert Named(end.threads[t], |end.stmts|);
      CountMoved(end.threads, t, Idle, Holder, end.threads[t].stmt);
      assert Fits(end, end.threads[t].stmt);
    }
    forall q | q in end.cache
      ensures var s := end.cache[q]; s < |end.stmts| && !end.stmts[s].closed && end.stmts[s].handle && end.stmts[s].closes == 0
    {
      CachedStmt(end, q);
      assert Fits(end, end.cache[q]);
    }
  }

  lemma {:induction false} CapacityStays(st: State, run: seq<(nat, Action)>, end: State)
    requires Reaches(st, run, end)
    ensures end.capacity == st.capacity
    decreases |run|
  {
    if run != [] {
      CapacityStays(Step(st, run[0].0, run[0].1).value, run[1..], end);
    }
  }

  /** Every prepared statement is cached, held, awaiting its eviction callback, about to
      be closed by exactly one query, or closed exactly once; never closed twice. */
  lemma NothingLeaks(queries: nat, capacity: nat, run: seq<(nat, Action)>, end: State, s: nat)
    requires capacity > 0 && Reaches(Initial(queries, capacity), run, end) && s < |end.stmts|
    ensures var x := end.stmts[s];
            && x.closes + Count(end.threads, Closer, s) <= 1
            && (x.closes == 1 || Count(end.threads, Closer, s) == 1 || Cached(end, s) || x.active > 0
                || Count(end.threads, Awaiter, s) == 1)
            && (x.closes == 1 ==> x.active == 0 && !Cached(end, s) && Count(end.threads, Awaiter, s) == 0)
  {
    InitialInv(queries, capacity);
    RunKeeps(Initial(queries, capacity), run, end);
    assert Fits(end, s);
    OwnersHold(end.threads, s);
  }

  lemma {:induction false} OwnersHold(ts: seq<Phase>, s: nat)
    ensures Count(ts, Owner, s) <= Count(ts, Holder, s)
  {
    if ts != [] {
      OwnersHold(ts[..|ts| - 1], s);
      OwnerHolds(ts[|ts| - 1], s);
    }
  }

  lemma OwnerHolds(ph: Phase, s: nat)
    ensures Plays(ph, Owner, s) ==> Plays(ph, Holder, s)
  {
  }

  // ---- Each query has a statement of its own text ----

  /** The text that query `t` has asked for last, read off the run. */
  function Asked(run: seq<(nat, Action)>, t: nat): Option<string> {
    if run == [] then None
    else
      var last := run[|run| - 1];
      if last.0 == t && last.1.Start? then Some(last.1.query) else Asked(run[..|run| - 1], t)
  }

  /** The text a query is at work on, while it is. */
  function At(ph: Phase): Option<string> {
    match ph
    case Idle => None
    case Retry(q) => Some(q)
    case Looked(q, _) => Some(q)
    case Missed(q) => Some(q)
    case Prepared(q, _) => Some(q)
    case Rejected(q, _) => Some(q)
    case Evicting(q, _, _) => Some(q)
    case Holding(q, _) => Some(q)
    case Closing(_, next) => At(next)
  }

  /** The statement a query has in hand is prepared for the text it is at work on. */
  predicate InHand(st: State, ph: Phase) {
    match ph
    case Looked(q, x) => x < |st.stmts| && st.stmts[x].text == q
    case Prepared(q, x) => x < |st.stmts| && st.stmts[x].text == q
    case Evicting(q, x, _) => x < |st.stmts| && st.stmts[x].text == q
    case Holding(q, x) => x < |st.stmts| && st.stmts[x].text == q
    case Closing(_, next) => InHand(st, next)
    case _ => true
  }

  ghost predicate CacheTexts(st: State) {
    forall q | q in st.cache :: st.cache[q] < |st.stmts| && st.stmts[st.cache[q]].text == q
  }

  ghost predicate Texts(st: State) {
    CacheTexts(st) && forall t | 0 <= t < |st.threads| :: InHand(st, st.threads[t])
  }

  /** No step changes the text of a statement. */
  ghost predicate SameTexts(st: State, st': State) {
    |st.stmts| <= |st'.stmts| && forall s | 0 <= s < |st.stmts| :: st'.stmts[s].text == st.stmts[s].text
  }

  lemma StillInHand(st: State, st': State, ph: Phase)
    requires SameTexts(st, st') && InHand(st, ph)
    ensures InHand(st', ph)
  {
  }

  /** What a step has in hand is what the query had, or what it has found or prepared. */
  lemma MovesOn(st: State, t: nat, a: Action)
    requires Step(st, t, a).Some? && CacheTexts(st) && InHand(st, st.threads[t])
    ensures InHand(Step(st, t, a).value, Step(st, t, a).value.threads[t])
  {
    StepSameTexts(st, t, a);
    var st' := Step(st, t, a).value;
    var ph := st.threads[t];
    if a.Callback? {
      StillInHand(st, st', Holding(ph.query, ph.stmt));
    } else if a.Close? {
      StillInHand(st, st', ph.next);
    }
  }

  lemma StepSameTexts(st: State, t: nat, a: Action)
    requires Step(st, t, a).Some?
    ensures SameTexts(st, Step(st, t, a).value)
  {
  }

  lemma SameCache(st: State, t: nat, a: Action)
    requires Step(st, t, a).Some? && !a.PeekOrAdd?
    ensures Step(st, t, a).value.cache == st.cache
  {
  }

  lemma AddedTexts(st: State, t: nat, oldest: string)
    requires Step(st, t, PeekOrAdd(oldest)).Some? && CacheTexts(st) && InHand(st, st.threads[t])
    ensures CacheTexts(Step(st, t, PeekOrAdd(oldest)).value)
  {
  }

  lemma CacheStays(st: State, t: nat, a: Action)
    requires Step(st, t, a).Some? && CacheTexts(st) && InHand(st, st.threads[t]) && SameTexts(st, Step(st, t, a).value)
    ensures CacheTexts(Step(st, t, a).value)
  {
    hide Step, InHand;
    if a.PeekOrAdd? {
      AddedTexts(st, t, a.oldest);
    } else {
      SameCache(st, t, a);
    }
  }

  lemma StepTexts(st: State, t: nat, a: Action)
    requires Texts(st) && Step(st, t, a).Some?
    ensures Texts(Step(st, t, a).value)
  {
    var st' := Step(st, t, a).value;
    assert InHand(st, st.threads[t]);
    MovesOn(st, t, a);
    StepSameTexts(st, t, a);
    CacheStays(st, t, a);
    forall i | 0 <= i < |st'.threads| ensures InHand(st', st'.threads[i]) {
      if i != t {
        assert InHand(st, st.threads[i]);
        OthersStay(st, t, a, i);
        StillInHand(st, st', st.threads[i]);
      }
    }
    hide Step, InHand, CacheTexts;
  }

  lemma OthersStay(st: State, t: nat, a: Action, i: nat)
    requires Step(st, t, a).Some? && i < |st.threads| && i != t
    ensures |Step(st, t, a).value.threads| == |st.threads| && Step(st, t, a).value.threads[i] == st.threads[i]
  {
  }

  /** A query turns to another text only by asking for it. */
  lemma StepAsked(st: State, t: nat, a: Action, i: nat)
    requires Step(st, t, a).Some? && i < |st.threads|
    ensures var now := At(Step(st, t, a).value.threads[i]);
            now.Some? ==> now == if i == t && a.Start? then Some(a.query) else At(st.threads[i])
  {
  }

  /** A run, up to its last step. */
  lemma {:induction false} LastStep(st: State, run: seq<(nat, Action)>, end: State) returns (mid: State)
    requires run != [] && Reaches(st, run, end)
    ensures var last := run[|run| - 1];
            Reaches(st, run[..|run| - 1], mid) && Step(mid, last.0, last.1) == Some(end)
    decreases |run|
  {
    hide Step;
    var next := Step(st, run[0].0, run[0].1).value;
    if |run| == 1 {
      assert run[1..] == [] && run[..0] == [];
      return st;
    }
    mid := LastStep(next, run[1..], end);
    var init := run[..|run| - 1];
    assert run[1..][..|run| - 2] == init[1..] && init[0] == run[0] && run[1..][|run| - 2] == run[|run| - 1];
    assert Reaches(st, init, mid);
  }

  lemma {:induction false} RunAsks(queries: nat, capacity: nat, run: seq<(nat, Action)>, end: State, t: nat)
    requires Reaches(Initial(queries, capacity), run, end) && t < |end.threads|
    ensures Texts(end) && (At(end.threads[t]).Some? ==> At(end.threads[t]) == Asked(run, t))
    decreases |run|
  {
    hide Step, Texts, InHand;
    if run == [] {
      InitialTexts(queries, capacity);
    } else {
      var mid := LastStep(Initial(queries, capacity), run, end);
      var last := run[|run| - 1];
      SameQueries(mid, last.0, last.1);
      RunAsks(queries, capacity, run[..|run| - 1], mid, t);
      StepTexts(mid, last.0, last.1);
      StepAsked(mid, last.0, last.1, t);
    }
  }

  lemma InitialTexts(queries: nat, capacity: nat)
    ensures Texts(Initial(queries, capacity))
  {
  }

  lemma SameQueries(st: State, t: nat, a: Action)
    requires Step(st, t, a).Some?
    ensures |Step(st, t, a).value.threads| == |st.threads|
  {
  }

  /** A query that holds a statement holds one that was prepared for the very text it has
      asked for, whoever prepared it; and the cache lists each statement under its own text. */
  lemma HoldersHaveTheirText(queries: nat, capacity: nat, run: seq<(nat, Action)>, end: State, t: nat)
    requires Reaches(Initial(queries, capacity), run, end) && t < |end.threads|
    ensures end.threads[t].Holding? ==>
              var s := end.threads[t].stmt; s < |end.stmts| && Asked(run, t) == Some(end.stmts[s].text)
    ensures forall q | q in end.cache :: end.cache[q] < |end.stmts| && end.stmts[end.cache[q]].text == q
  {
    RunAsks(queries, capacity, run, end, t);
    hide Asked, Reaches;
    assert InHand(end, end.threads[t]);
  }

  // ---- What the cache is for ----

  /** A query whose text is cached gets the cached statement, in two steps, and no statement
      is prepared for it. */
  lemma CachedIsUsed(st: State, t: nat, q: string)
    requires Inv(st) && t < |st.threads| && st.threads[t] == Retry(q) && q in st.cache
    ensures var looked := Step(st, t, Lookup);
            && looked.Some? && looked.value.stmts == st.stmts && looked.value.cache == st.cache
            && var held := Step(looked.value, t, Acquire);
               && held.Some? && held.value.threads[t] == Holding(q, st.cache[q]) && held.value.cache == st.cache
               && |held.value.stmts| == |st.stmts| && held.value.stmts[st.cache[q]].active == st.stmts[st.cache[q]].active + 1
  {
    CachedStmt(st, q);
    hide Inv;
  }

  /** A query whose text is not cached prepares a statement of its own and caches it, and
      holds it at once unless another one has to make room. */
  lemma NewIsCached(st: State, t: nat, q: string, oldest: string)
    requires t < |st.threads| && st.threads[t] == Retry(q) && q !in st.cache
    requires |st.cache| < st.capacity || oldest in st.cache
    ensures var missed := Step(st, t, Lookup);
            && missed.Some?
            && var prepared := Step(missed.value, t, Prepare(true));
               && prepared.Some?
               && var added := Step(prepared.value, t, PeekOrAdd(oldest));
                  && added.Some? && added.value.stmts == st.stmts + [Stmt(q, 1, false, true, 0)]
                  && added.value.cache == (if |st.cache| < st.capacity then st.cache else st.cache - {oldest})[q := |st.stmts|]
                  && added.value.threads[t] == if |st.cache| < st.capacity then Holding(q, |st.stmts|)
                                               else Evicting(q, |st.stmts|, st.cache[oldest])
  {
  }
}
