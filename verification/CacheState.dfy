/** The state behind FMDatabase as a value: what each FMStatement owns, which result set holds it,
    what the cache contains.  S stands for the identity of an FMStatement; result sets are
    numbered in the order they were opened. */
module CacheState {
  import opened Wrappers
  import opened Sqlite
  import opened CacheSpec

  /** A native handle that has not been finalized. */
  datatype HandleState = HandleState(sql: string, bindings: seq<Value>, seen: seq<Content>)

  /** shares counts the owners of an FMStatement.  cached and holder say who they are: the cache,
      and at most one result set. */
  datatype StatementState = StatementState(
    inUse: bool, handle: Option<HandleState>, query: string, useCount: nat, shares: nat,
    cached: bool, holder: Option<nat>)

  datatype Heap<S> = Heap(
    stmts: map<S, StatementState>,
    sets: seq<Option<S>>,            // the statement each result set holds
    cached: map<string, seq<S>>)

  // ---------------------------------------------------------------- the invariant

  ghost predicate StatementOk(st: StatementState, e: Engine) {
    && st.shares == (if st.cached then 1 else 0) + (if st.holder.Some? then 1 else 0)
    && (st.handle.Some? ==>
          && st.shares > 0
          && (st.inUse <==> st.holder.Some?)
          && (st.holder.None? ==> st.handle.value.seen == [])
          && e.compiles(st.handle.value.sql)
          && |st.handle.value.bindings| == e.arity(st.handle.value.sql))
    && (st.cached ==> st.handle.Some? && st.handle.value.sql == st.query)
  }

  /** A statement has at most one holder, and knows it: no two result sets share a statement. */
  ghost predicate Holding<S>(g: Heap<S>) {
    && (forall i :: 0 <= i < |g.sets| && g.sets[i].Some? ==>
          g.sets[i].value in g.stmts && g.stmts[g.sets[i].value].holder == Some(i))
    && (forall s :: s in g.stmts && g.stmts[s].holder.Some? ==>
          g.stmts[s].holder.value < |g.sets| && g.sets[g.stmts[s].holder.value] == Some(s))
  }

  ghost predicate Caching<S>(g: Heap<S>) {
    && (forall k, i :: k in g.cached && 0 <= i < |g.cached[k]| ==>
          g.cached[k][i] in g.stmts && g.stmts[g.cached[k][i]].cached && g.stmts[g.cached[k][i]].query == k)
    && (forall k, i, j :: k in g.cached && 0 <= i < j < |g.cached[k]| ==> g.cached[k][i] != g.cached[k][j])
    && (forall s :: s in g.stmts && g.stmts[s].cached ==>
          g.stmts[s].query in g.cached && s in g.cached[g.stmts[s].query])
  }

  ghost predicate Structure<S>(g: Heap<S>, e: Engine) {
    && Holding(g) && Caching(g)
    && (forall s :: s in g.stmts ==> StatementOk(g.stmts[s], e))
  }

  /** What a client can know of a result set from the statement it holds. */
  ghost function Seen(st: StatementState): ResultSet {
    match st.handle
    case None => Orphaned
    case Some(h) => Open(h.sql, h.bindings, h.seen, st.cached)
  }

  ghost predicate Agrees<S>(g: Heap<S>, m: State)
    requires Holding(g)
  {
    && |g.sets| == |m.sets|
    && (forall i :: 0 <= i < |g.sets| ==>
          m.sets[i] == if g.sets[i].None? then Closed else Seen(g.stmts[g.sets[i].value]))
  }

  ghost function UseCounts<S>(g: Heap<S>, k: string): (u: seq<nat>)
    requires Caching(g)
  {
    if k in g.cached then seq(|g.cached[k]|, i requires 0 <= i < |g.cached[k]| => g.stmts[g.cached[k][i]].useCount)
    else []
  }

  function Total(xs: seq<nat>): nat {
    if xs == [] then 0 else Total(xs[..|xs| - 1]) + xs[|xs| - 1]
  }

  /** The use counts of a SQL text's cached statements add up to its executions, and there is at
      most one more of them than were ever open at once. */
  ghost predicate Accounted<S>(g: Heap<S>, m: State)
    requires Caching(g)
  {
    && (forall k :: Total(UseCounts(g, k)) == Count(m.executions, k))
    && (forall k :: |UseCounts(g, k)| <= Count(m.peak, k) + 1)
    && (forall k :: OpenOn(m.sets, k) <= Count(m.peak, k))
  }

  ghost predicate Inv<S>(g: Heap<S>, m: State, e: Engine) {
    Structure(g, e) && Agrees(g, m) && Accounted(g, m)
  }

  /** A call for sql may use cached statement s. */
  ghost predicate Idle<S>(g: Heap<S>, s: S, sql: string) {
    && sql in g.cached && s in g.cached[sql]
    && s in g.stmts && !g.stmts[s].inUse && g.stmts[s].cached
    && g.stmts[s].handle.Some? && g.stmts[s].handle.value.sql == sql
  }

  ghost predicate NoneIdle<S>(g: Heap<S>, sql: string) {
    sql in g.cached ==>
      forall i :: 0 <= i < |g.cached[sql]| ==> g.cached[sql][i] in g.stmts && g.stmts[g.cached[sql][i]].inUse
  }

  // ---------------------------------------------------------------- what each call does to it

  function AddTo<S>(cached: map<string, seq<S>>, sql: string, s: S): map<string, seq<S>> {
    cached[sql := (if sql in cached then cached[sql] else []) + [s]]
  }

  /** What calls do to a statement, one thing at a time: wrap a handle, put the statement in the
      cache, give it bindings, hand it to a result set, count a use. */
  ghost function Wrapped<S>(g: Heap<S>, s: S, h: HandleState): Heap<S> {
    g.(stmts := g.stmts[s := StatementState(false, Some(h), "", 0, 0, false, None)])
  }

  function Shared(st: StatementState, sql: string): StatementState {
    st.(query := sql, shares := st.shares + 1, cached := true)
  }

  ghost function Filed<S>(g: Heap<S>, s: S, sql: string): Heap<S>
    requires s in g.stmts
  {
    g.(stmts := g.stmts[s := Shared(g.stmts[s], sql)],
       cached := AddTo(g.cached, sql, s))
  }

  ghost function Adopted<S>(g: Heap<S>, s: S, h: HandleState, caching: bool): Heap<S> {
    if caching then Filed(Wrapped(g, s, h), s, h.sql) else Wrapped(g, s, h)
  }

  ghost function Rebound<S>(g: Heap<S>, s: S, h: HandleState): Heap<S>
    requires s in g.stmts
  {
    g.(stmts := g.stmts[s := g.stmts[s].(handle := Some(h))])
  }

  ghost function Attached<S>(g: Heap<S>, s: S): Heap<S>
    requires s in g.stmts
  {
    var st := g.stmts[s];
    g.(stmts := g.stmts[s := st.(inUse := true, shares := st.shares + 1, holder := Some(|g.sets|))],
       sets := g.sets + [Some(s)])
  }

  ghost function Counted<S>(g: Heap<S>, s: S): Heap<S>
    requires s in g.stmts
  {
    g.(stmts := g.stmts[s := g.stmts[s].(useCount := g.stmts[s].useCount + 1)])
  }

  /** A query served by cached statement s. */
  ghost function HitQuery<S>(g: Heap<S>, s: S, args: seq<Value>): Heap<S>
    requires s in g.stmts && g.stmts[s].handle.Some?
  {
    var st := g.stmts[s];
    g.(stmts := g.stmts[s := st.(inUse := true, useCount := st.useCount + 1, shares := st.shares + 1,
                                 holder := Some(|g.sets|),
                                 handle := Some(HandleState(st.handle.value.sql, args, [])))],
       sets := g.sets + [Some(s)])
  }

  /** A query that prepares a handle and wraps it in the new statement s. */
  ghost function MissQuery<S>(g: Heap<S>, s: S, sql: string, args: seq<Value>, caching: bool): Heap<S> {
    Heap(g.stmts[s := StatementState(true, Some(HandleState(sql, args, [])), if caching then sql else "", 1,
                                     if caching then 2 else 1, caching, Some(|g.sets|))],
         g.sets + [Some(s)],
         if caching then AddTo(g.cached, sql, s) else g.cached)
  }

  lemma HitQuerySteps<S>(g: Heap<S>, s: S, args: seq<Value>)
    requires s in g.stmts && g.stmts[s].handle.Some?
    ensures Counted(Attached(Rebound(g, s, HandleState(g.stmts[s].handle.value.sql, args, [])), s), s) ==
            HitQuery(g, s, args)
  {
  }

  lemma MissQuerySteps<S>(g: Heap<S>, s: S, sql: string, args: seq<Value>, caching: bool)
    ensures Counted(Attached(Adopted(g, s, HandleState(sql, args, []), caching), s), s) ==
            MissQuery(g, s, sql, args, caching)
  {
  }

  ghost function HitUpdate<S>(g: Heap<S>, s: S, args: seq<Value>): Heap<S>
    requires s in g.stmts && g.stmts[s].handle.Some?
  {
    var st := g.stmts[s];
    g.(stmts := g.stmts[s := st.(inUse := false, useCount := st.useCount + 1,
                                 handle := Some(HandleState(st.handle.value.sql, args, [])))])
  }

  ghost function MissUpdate<S>(g: Heap<S>, s: S, sql: string, args: seq<Value>): Heap<S> {
    g.(stmts := g.stmts[s := StatementState(false, Some(HandleState(sql, args, [])), sql, 1, 1, true, None)],
       cached := AddTo(g.cached, sql, s))
  }

  lemma HitUpdateSteps<S>(g: Heap<S>, s: S, args: seq<Value>)
    requires s in g.stmts && g.stmts[s].handle.Some? && !g.stmts[s].inUse
    ensures Counted(Rebound(g, s, HandleState(g.stmts[s].handle.value.sql, args, [])), s) == HitUpdate(g, s, args)
  {
  }

  lemma MissUpdateSteps<S>(g: Heap<S>, s: S, sql: string, args: seq<Value>, seen: seq<Content>)
    ensures Counted(Rebound(Adopted(g, s, HandleState(sql, args, seen), true), s, HandleState(sql, args, [])), s) ==
            MissUpdate(g, s, sql, args)
  {
  }

  ghost function StepSet<S>(g: Heap<S>, s: S, c: Content): Heap<S>
    requires s in g.stmts && g.stmts[s].handle.Some?
  {
    var h := g.stmts[s].handle.value;
    g.(stmts := g.stmts[s := g.stmts[s].(handle := Some(h.(seen := h.seen + [c])))])
  }

  function Rewound(st: StatementState): StatementState {
    st.(inUse := false, handle := match st.handle case None => None case Some(h) => Some(h.(seen := [])))
  }

  /** A result set lets go; the last share finalizes. */
  function Unshared(st: StatementState): StatementState
    requires st.shares > 0
  {
    st.(shares := st.shares - 1, holder := None, handle := if st.shares == 1 then None else st.handle)
  }

  /** What is left of a statement when its result set closes. */
  function Dropped(st: StatementState): StatementState
    requires st.shares > 0
  {
    Unshared(Rewound(st))
  }

  ghost function CloseSet<S>(g: Heap<S>, i: nat): Heap<S>
    requires i < |g.sets|
    requires g.sets[i].Some? ==> g.sets[i].value in g.stmts && g.stmts[g.sets[i].value].shares > 0
  {
    if g.sets[i].None? then g
    else
      var s := g.sets[i].value;
      g.(stmts := g.stmts[s := Dropped(g.stmts[s])], sets := g.sets[i := None])
  }

  /** clearCachedStatements finalizes every cached handle, in use or not, and drops the cache's
      share of every cached statement. */
  function Uncached(st: StatementState): StatementState {
    if st.cached then ReleasedStatement(ClosedStatement(st)) else st
  }

  ghost function ClearAll<S>(g: Heap<S>): Heap<S> {
    Heap(map s | s in g.stmts :: Uncached(g.stmts[s]), g.sets, map[])
  }

  /** clearCachedStatements works in two rounds: it closes the cached statements, and then the
      emptied cache lets go of them. */
  function ClosedStatement(st: StatementState): StatementState {
    st.(inUse := false, handle := None)
  }

  function ReleasedStatement(st: StatementState): StatementState {
    if st.shares > 0 then st.(shares := st.shares - 1, cached := false) else st
  }

  ghost function ClosedIn<S>(g: Heap<S>, c: set<S>): Heap<S> {
    g.(stmts := map s | s in g.stmts :: if s in c then ClosedStatement(g.stmts[s]) else g.stmts[s])
  }

  ghost function ReleasedIn<S>(g: Heap<S>, c: set<S>): Heap<S> {
    g.(stmts := map s | s in g.stmts :: if s in c then ReleasedStatement(g.stmts[s]) else g.stmts[s])
  }

  ghost function SetOf<S>(ss: seq<S>): set<S> {
    set s | s in ss
  }

  ghost function CachedUnder<S>(g: Heap<S>, keys: set<string>): set<S> {
    set s | s in g.stmts && g.stmts[s].cached && g.stmts[s].query in keys
  }

  lemma SetOfOneMore<S>(ss: seq<S>, i: nat)
    requires i < |ss|
    ensures SetOf(ss[..i + 1]) == SetOf(ss[..i]) + {ss[i]}
  {
    assert ss[..i + 1] == ss[..i] + [ss[i]];
  }

  lemma CachedUnderOneMore<S>(g: Heap<S>, keys: set<string>, k: string)
    requires Caching(g) && k in g.cached
    ensures CachedUnder(g, keys + {k}) == CachedUnder(g, keys) + SetOf(g.cached[k])
  {
  }

  lemma CloseOneMore<S>(g: Heap<S>, c: set<S>, s: S)
    requires s in g.stmts
    ensures var h := ClosedIn(g, c);
            h.(stmts := h.stmts[s := ClosedStatement(h.stmts[s])]) == ClosedIn(g, c + {s})
  {
  }

  lemma CloseMore<S>(g: Heap<S>, c: set<S>, d: set<S>)
    ensures ClosedIn(ClosedIn(g, c), d) == ClosedIn(g, c + d)
  {
  }

  lemma ReleaseOneMore<S>(g: Heap<S>, c: set<S>, s: S)
    requires s in g.stmts && s !in c
    ensures var h := ReleasedIn(g, c);
            h.(stmts := h.stmts[s := ReleasedStatement(h.stmts[s])]) == ReleasedIn(g, c + {s})
  {
  }

  lemma ReleaseMore<S>(g: Heap<S>, c: set<S>, d: set<S>)
    requires c !! d
    ensures ReleasedIn(ReleasedIn(g, c), d) == ReleasedIn(g, c + d)
  {
  }

  lemma ClearAllRounds<S>(g: Heap<S>, e: Engine)
    requires Structure(g, e)
    ensures var c := CachedUnder(g, g.cached.Keys);
            ReleasedIn(ClosedIn(g, c), c).(cached := map[]) == ClearAll(g)
  {
    var c := CachedUnder(g, g.cached.Keys);
    forall s | s in g.stmts ensures g.stmts[s].cached ==> g.stmts[s].shares > 0 {
      assert StatementOk(g.stmts[s], e);
    }
    var a, b := ReleasedIn(ClosedIn(g, c), c).stmts, ClearAll(g).stmts;
    forall s | s in g.stmts ensures a[s] == b[s] {
    }
  }

  // ---------------------------------------------------------------- counting

  lemma {:induction false} Pigeonhole(xs: seq<nat>, n: set<nat>)
    requires forall i :: 0 <= i < |xs| ==> xs[i] in n
    requires forall i, j :: 0 <= i < j < |xs| ==> xs[i] != xs[j]
    ensures |xs| <= |n|
  {
    if xs != [] {
      var last := |xs| - 1;
      Pigeonhole(xs[..last], n - {xs[last]});
    }
  }

  /** Opening a result set adds one to the count on its SQL text, if caching is on. */
  lemma OpenOnAppend(sets: seq<ResultSet>, rs: ResultSet, k: string)
    ensures OpenOn(sets + [rs], k) ==
            OpenOn(sets, k) + (if rs.Open? && rs.cached && rs.sql == k then 1 else 0)
  {
    var before := OpenIndices(sets, k);
    var all := sets + [rs];
    var after := OpenIndices(all, k);
    if rs.Open? && rs.cached && rs.sql == k {
      assert after == before + {|sets|};
    } else {
      assert after == before;
    }
  }

  lemma NoneOpen(sets: seq<ResultSet>, k: string)
    requires forall i :: 0 <= i < |sets| ==> !sets[i].Open? || !sets[i].cached
    ensures OpenOn(sets, k) == 0
  {
    forall i | i in OpenIndices(sets, k) ensures false {
    }
    assert OpenIndices(sets, k) == {};
  }

  lemma SubsetSize(a: set<nat>, b: set<nat>)
    requires a <= b
    ensures |a| <= |b|
  {
    assert b == a + (b - a);
  }

  /** Closing result sets, or moving them on, opens none. */
  lemma OpenOnShrink(sets: seq<ResultSet>, sets': seq<ResultSet>, k: string)
    requires |sets'| == |sets|
    requires forall i :: 0 <= i < |sets| && sets'[i].Open? ==>
               sets[i].Open? && sets[i].sql == sets'[i].sql && sets[i].cached == sets'[i].cached
    ensures OpenOn(sets', k) <= OpenOn(sets, k)
  {
    var before := OpenIndices(sets, k);
    var after := OpenIndices(sets', k);
    SubsetSize(after, before);
  }

  /** If every cached statement for k is held, there are no more of them than open result sets. */
  lemma AllHeld<S>(g: Heap<S>, m: State, e: Engine, k: string)
    requires Structure(g, e) && Agrees(g, m)
    requires NoneIdle(g, k)
    ensures |UseCounts(g, k)| <= OpenOn(m.sets, k)
  {
    if k in g.cached {
      var ss := g.cached[k];
      forall i | 0 <= i < |ss| ensures g.stmts[ss[i]].holder.Some? {
        assert StatementOk(g.stmts[ss[i]], e);
      }
      var at := seq(|ss|, i requires 0 <= i < |ss| => g.stmts[ss[i]].holder.value);
      var open := OpenIndices(m.sets, k);
      forall i | 0 <= i < |ss| ensures at[i] in open {
        assert StatementOk(g.stmts[ss[i]], e);
      }
      Pigeonhole(at, open);
    }
  }

  lemma {:induction false} TotalUpdate(xs: seq<nat>, i: nat, v: nat)
    requires i < |xs|
    ensures Total(xs[i := v]) == Total(xs) - xs[i] + v
  {
    var last := |xs| - 1;
    if i == last {
      assert xs[i := v][..last] == xs[..last];
    } else {
      assert xs[i := v][..last] == xs[..last][i := v];
      TotalUpdate(xs[..last], i, v);
    }
  }

  lemma UseUnchanged<S>(g: Heap<S>, g': Heap<S>)
    requires Caching(g) && Caching(g') && g'.cached == g.cached
    requires forall t :: t in g.stmts ==> t in g'.stmts && g'.stmts[t].useCount == g.stmts[t].useCount
    ensures forall k :: UseCounts(g', k) == UseCounts(g, k)
  {
    forall k ensures UseCounts(g', k) == UseCounts(g, k) {
    }
  }

  lemma TotalOneMore(xs: seq<nat>, ys: seq<nat>, i: nat)
    requires |xs| == |ys| && i < |xs| && ys[i] == xs[i] + 1 && forall j :: 0 <= j < |xs| && j != i ==> ys[j] == xs[j]
    ensures Total(ys) == Total(xs) + 1
  {
    assert ys == xs[i := xs[i] + 1];
    TotalUpdate(xs, i, xs[i] + 1);
  }

  lemma UseCountedOn<S>(g: Heap<S>, g': Heap<S>, s: S, sql: string)
    requires Caching(g) && Caching(g')
    requires g'.cached == g.cached && sql in g.cached && s in g.cached[sql]
    requires forall t :: t in g.stmts ==>
               t in g'.stmts && g'.stmts[t].useCount == g.stmts[t].useCount + (if t == s then 1 else 0)
    ensures |UseCounts(g', sql)| == |UseCounts(g, sql)|
    ensures Total(UseCounts(g', sql)) == Total(UseCounts(g, sql)) + 1
  {
    var ss := g.cached[sql];
    var i :| 0 <= i < |ss| && ss[i] == s;
    forall j | 0 <= j < |ss| && j != i ensures UseCounts(g', sql)[j] == UseCounts(g, sql)[j] {
      assert ss[j] != s;
    }
    TotalOneMore(UseCounts(g, sql), UseCounts(g', sql), i);
  }

  /** Counting one more use of cached statement s changes one use count by one. */
  lemma UseCounted<S>(g: Heap<S>, g': Heap<S>, s: S, sql: string)
    requires Caching(g) && Caching(g')
    requires g'.cached == g.cached && sql in g.cached && s in g.cached[sql]
    requires forall t :: t in g.stmts ==>
               t in g'.stmts && g'.stmts[t].useCount == g.stmts[t].useCount + (if t == s then 1 else 0)
    ensures forall k :: |UseCounts(g', k)| == |UseCounts(g, k)|
    ensures forall k :: Total(UseCounts(g', k)) == Total(UseCounts(g, k)) + (if k == sql then 1 else 0)
  {
    UseCountedOn(g, g', s, sql);
    forall k | k != sql ensures UseCounts(g', k) == UseCounts(g, k) {
    }
  }

  /** Caching a new statement, used once, adds one use count of one. */
  lemma UseAdded<S>(g: Heap<S>, g': Heap<S>, s: S, sql: string)
    requires Caching(g) && Caching(g')
    requires g'.cached == AddTo(g.cached, sql, s) && s !in g.stmts && s in g'.stmts
    requires g'.stmts[s].useCount == 1
    requires forall t :: t in g.stmts ==> t in g'.stmts && g'.stmts[t].useCount == g.stmts[t].useCount
    ensures forall k :: |UseCounts(g', k)| == |UseCounts(g, k)| + (if k == sql then 1 else 0)
    ensures forall k :: Total(UseCounts(g', k)) == Total(UseCounts(g, k)) + (if k == sql then 1 else 0)
  {
    forall k ensures |UseCounts(g', k)| == |UseCounts(g, k)| + (if k == sql then 1 else 0) &&
                     Total(UseCounts(g', k)) == Total(UseCounts(g, k)) + (if k == sql then 1 else 0) {
      if k == sql {
        var u := UseCounts(g, sql);
        assert UseCounts(g', sql) == u + [1];
        assert (u + [1])[..|u|] == u;
      } else {
        assert UseCounts(g', k) == UseCounts(g, k);
      }
    }
  }

  lemma QueryCounts(m: State, e: Engine, sql: string, args: seq<Value>)
    requires e.compiles(sql)
    requires forall k :: OpenOn(m.sets, k) <= Count(m.peak, k)
    ensures var m' := DoQuery(e, m, sql, args);
            && (forall k :: OpenOn(m'.sets, k) <= Count(m'.peak, k))
            && (forall k :: Count(m'.peak, k) >= Count(m.peak, k))
            && (forall k :: Count(m'.executions, k) ==
                  Count(m.executions, k) + (if m.caching && k == sql then 1 else 0))
  {
    forall k ensures OpenOn(m.sets + [Open(sql, args, [], m.caching)], k) ==
                     OpenOn(m.sets, k) + (if m.caching && k == sql then 1 else 0) {
      OpenOnAppend(m.sets, Open(sql, args, [], m.caching), k);
    }
  }

  // ---------------------------------------------------------------- every call keeps the invariant

  lemma HitQueryStructure<S>(g: Heap<S>, e: Engine, s: S, sql: string, args: seq<Value>)
    requires Structure(g, e) && e.compiles(sql) && |args| == e.arity(sql)
    requires Idle(g, s, sql)
    ensures Structure(HitQuery(g, s, args), e)
  {
    assert StatementOk(g.stmts[s], e);
  }

  lemma HitQueryAgrees<S>(g: Heap<S>, m: State, e: Engine, s: S, sql: string, args: seq<Value>)
    requires Structure(g, e) && Agrees(g, m)
    requires m.caching && e.compiles(sql)
    requires Idle(g, s, sql)
    requires Holding(HitQuery(g, s, args))
    ensures Agrees(HitQuery(g, s, args), DoQuery(e, m, sql, args))
  {
    assert StatementOk(g.stmts[s], e);
  }

  lemma HitQueryKeeps<S>(g: Heap<S>, m: State, e: Engine, s: S, sql: string, args: seq<Value>)
    requires Inv(g, m, e)
    requires m.caching && e.compiles(sql) && |args| == e.arity(sql)
    requires Idle(g, s, sql)
    ensures Inv(HitQuery(g, s, args), DoQuery(e, m, sql, args), e)
  {
    HitQueryStructure(g, e, s, sql, args);
    HitQueryAgrees(g, m, e, s, sql, args);
    QueryCounts(m, e, sql, args);
    UseCounted(g, HitQuery(g, s, args), s, sql);
  }

  lemma MissQueryHolding<S>(g: Heap<S>, s: S, sql: string, args: seq<Value>, caching: bool)
    requires Holding(g) && s !in g.stmts
    ensures Holding(MissQuery(g, s, sql, args, caching))
  {
  }

  lemma MissQueryCaching<S>(g: Heap<S>, s: S, sql: string, args: seq<Value>, caching: bool)
    requires Caching(g) && s !in g.stmts
    ensures Caching(MissQuery(g, s, sql, args, caching))
  {
  }

  lemma MissQueryStructure<S>(g: Heap<S>, e: Engine, s: S, sql: string, args: seq<Value>, caching: bool)
    requires Structure(g, e) && e.compiles(sql) && |args| == e.arity(sql) && s !in g.stmts
    ensures Structure(MissQuery(g, s, sql, args, caching), e)
  {
    MissQueryHolding(g, s, sql, args, caching);
    MissQueryCaching(g, s, sql, args, caching);
  }

  lemma MissQueryAgrees<S>(g: Heap<S>, m: State, e: Engine, s: S, sql: string, args: seq<Value>)
    requires Holding(g) && Agrees(g, m) && e.compiles(sql) && s !in g.stmts
    requires Holding(MissQuery(g, s, sql, args, m.caching))
    ensures Agrees(MissQuery(g, s, sql, args, m.caching), DoQuery(e, m, sql, args))
  {
  }

  lemma MissQueryCounts<S>(g: Heap<S>, m: State, e: Engine, s: S, sql: string, args: seq<Value>)
    requires Caching(g) && Accounted(g, m) && e.compiles(sql) && s !in g.stmts
    requires Caching(MissQuery(g, s, sql, args, m.caching))
    requires m.caching ==> |UseCounts(g, sql)| <= OpenOn(m.sets, sql)
    ensures Accounted(MissQuery(g, s, sql, args, m.caching), DoQuery(e, m, sql, args))
  {
    var g' := MissQuery(g, s, sql, args, m.caching);
    QueryCounts(m, e, sql, args);
    if m.caching {
      UseAdded(g, g', s, sql);
    } else {
      UseUnchanged(g, g');
    }
  }

  lemma MissQueryKeeps<S>(g: Heap<S>, m: State, e: Engine, s: S, sql: string, args: seq<Value>)
    requires Inv(g, m, e)
    requires e.compiles(sql) && |args| == e.arity(sql) && s !in g.stmts
    requires m.caching ==> NoneIdle(g, sql)
    ensures Inv(MissQuery(g, s, sql, args, m.caching), DoQuery(e, m, sql, args), e)
  {
    MissQueryStructure(g, e, s, sql, args, m.caching);
    MissQueryAgrees(g, m, e, s, sql, args);
    if m.caching {
      AllHeld(g, m, e, sql);
    }
    MissQueryCounts(g, m, e, s, sql, args);
  }

  lemma HitUpdateStructure<S>(g: Heap<S>, e: Engine, s: S, sql: string, args: seq<Value>)
    requires Structure(g, e) && e.compiles(sql) && |args| == e.arity(sql) && Idle(g, s, sql)
    ensures Structure(HitUpdate(g, s, args), e)
  {
    assert StatementOk(g.stmts[s], e);
  }

  lemma HitUpdateAgrees<S>(g: Heap<S>, m: State, e: Engine, s: S, sql: string, args: seq<Value>)
    requires Structure(g, e) && Agrees(g, m) && Idle(g, s, sql) && Holding(HitUpdate(g, s, args)) && e.compiles(sql)
    ensures Agrees(HitUpdate(g, s, args), DoUpdate(e, m, sql, args).0)
  {
    assert StatementOk(g.stmts[s], e);
  }

  lemma HitUpdateCounts<S>(g: Heap<S>, m: State, e: Engine, s: S, sql: string, args: seq<Value>)
    requires Caching(g) && Accounted(g, m) && Idle(g, s, sql) && Caching(HitUpdate(g, s, args))
    requires m.caching && e.compiles(sql)
    ensures Accounted(HitUpdate(g, s, args), DoUpdate(e, m, sql, args).0)
  {
    UseCounted(g, HitUpdate(g, s, args), s, sql);
  }

  lemma HitUpdateKeeps<S>(g: Heap<S>, m: State, e: Engine, s: S, sql: string, args: seq<Value>)
    requires Inv(g, m, e)
    requires m.caching && e.compiles(sql) && |args| == e.arity(sql)
    requires Idle(g, s, sql)
    ensures Inv(HitUpdate(g, s, args), DoUpdate(e, m, sql, args).0, e)
  {
    HitUpdateStructure(g, e, s, sql, args);
    HitUpdateAgrees(g, m, e, s, sql, args);
    HitUpdateCounts(g, m, e, s, sql, args);
  }

  lemma MissUpdateStructure<S>(g: Heap<S>, e: Engine, s: S, sql: string, args: seq<Value>)
    requires Structure(g, e) && e.compiles(sql) && |args| == e.arity(sql) && s !in g.stmts
    ensures Structure(MissUpdate(g, s, sql, args), e)
  {
  }

  lemma MissUpdateAgrees<S>(g: Heap<S>, m: State, e: Engine, s: S, sql: string, args: seq<Value>)
    requires Holding(g) && Agrees(g, m) && s !in g.stmts && Holding(MissUpdate(g, s, sql, args)) && e.compiles(sql)
    ensures Agrees(MissUpdate(g, s, sql, args), DoUpdate(e, m, sql, args).0)
  {
  }

  lemma MissUpdateCounts<S>(g: Heap<S>, m: State, e: Engine, s: S, sql: string, args: seq<Value>)
    requires Caching(g) && Accounted(g, m) && s !in g.stmts && Caching(MissUpdate(g, s, sql, args))
    requires m.caching && e.compiles(sql) && |UseCounts(g, sql)| <= Count(m.peak, sql)
    ensures Accounted(MissUpdate(g, s, sql, args), DoUpdate(e, m, sql, args).0)
  {
    UseAdded(g, MissUpdate(g, s, sql, args), s, sql);
  }

  lemma MissUpdateKeeps<S>(g: Heap<S>, m: State, e: Engine, s: S, sql: string, args: seq<Value>)
    requires Inv(g, m, e)
    requires m.caching && e.compiles(sql) && |args| == e.arity(sql) && s !in g.stmts
    requires NoneIdle(g, sql)
    ensures Inv(MissUpdate(g, s, sql, args), DoUpdate(e, m, sql, args).0, e)
  {
    MissUpdateStructure(g, e, s, sql, args);
    MissUpdateAgrees(g, m, e, s, sql, args);
    AllHeld(g, m, e, sql);
    MissUpdateCounts(g, m, e, s, sql, args);
  }

  lemma StepSetStructure<S>(g: Heap<S>, e: Engine, s: S, c: Content)
    requires Structure(g, e) && s in g.stmts && g.stmts[s].handle.Some? && g.stmts[s].holder.Some?
    ensures Structure(StepSet(g, s, c), e)
  {
    assert StatementOk(g.stmts[s], e);
  }

  /** Only the result set that steps moves. */
  lemma StepSetAgrees<S>(g: Heap<S>, m: State, i: nat, c: Content)
    requires Holding(g) && Agrees(g, m)
    requires i < |g.sets| && g.sets[i].Some? && g.stmts[g.sets[i].value].handle.Some?
    requires Holding(StepSet(g, g.sets[i].value, c))
    ensures m.sets[i].Open?
    ensures Agrees(StepSet(g, g.sets[i].value, c), m.(sets := m.sets[i := m.sets[i].(seen := m.sets[i].seen + [c])]))
  {
  }

  lemma StepSetKeeps<S>(g: Heap<S>, m: State, e: Engine, i: nat, c: Content)
    requires Inv(g, m, e)
    requires i < |g.sets| && g.sets[i].Some? && g.stmts[g.sets[i].value].handle.Some?
    ensures m.sets[i].Open?
    ensures Inv(StepSet(g, g.sets[i].value, c),
                m.(sets := m.sets[i := m.sets[i].(seen := m.sets[i].seen + [c])]), e)
  {
    var g' := StepSet(g, g.sets[i].value, c);
    StepSetStructure(g, e, g.sets[i].value, c);
    StepSetAgrees(g, m, i, c);
    UseUnchanged(g, g');
    var sets' := m.sets[i := m.sets[i].(seen := m.sets[i].seen + [c])];
    forall k ensures OpenOn(sets', k) <= OpenOn(m.sets, k) {
      OpenOnShrink(m.sets, sets', k);
    }
  }

  /** The same, for a step that gives result set i what Stepped says. */
  lemma StepSetInv<S>(g: Heap<S>, m: State, e: Engine, i: nat, g': Heap<S>, m': State)
    requires Inv(g, m, e) && i < |g.sets| && g.sets[i].Some? && m.sets[i].Open?
    requires g.sets[i].value in g.stmts && g.stmts[g.sets[i].value].handle.Some?
    requires g' == StepSet(g, g.sets[i].value, m.content) && m' == Stepped(e, m, i).0
    ensures Inv(g', m', e)
  {
    StepSetKeeps(g, m, e, i, m.content);
  }

  lemma CachingKeeps<S>(g: Heap<S>, m: State, e: Engine, on: bool)
    requires Inv(g, m, e)
    ensures Inv(g, m.(caching := on), e)
  {
  }

  lemma CloseSetStructure<S>(g: Heap<S>, e: Engine, i: nat)
    requires Structure(g, e) && i < |g.sets|
    requires g.sets[i].Some? ==> g.stmts[g.sets[i].value].shares > 0
    ensures Structure(CloseSet(g, i), e)
  {
    if g.sets[i].Some? {
      assert StatementOk(g.stmts[g.sets[i].value], e);
    }
  }

  lemma CloseSetAgrees<S>(g: Heap<S>, m: State, i: nat)
    requires Holding(g) && Agrees(g, m) && i < |g.sets|
    requires g.sets[i].Some? ==> g.stmts[g.sets[i].value].shares > 0
    requires Holding(CloseSet(g, i))
    ensures Agrees(CloseSet(g, i), DoClose(m, i))
  {
  }

  lemma CloseSetCounts<S>(g: Heap<S>, m: State, i: nat)
    requires Caching(g) && Accounted(g, m) && i < |g.sets| == |m.sets|
    requires g.sets[i].Some? ==> g.sets[i].value in g.stmts && g.stmts[g.sets[i].value].shares > 0
    requires Caching(CloseSet(g, i))
    ensures Accounted(CloseSet(g, i), DoClose(m, i))
  {
    UseUnchanged(g, CloseSet(g, i));
    forall k ensures OpenOn(DoClose(m, i).sets, k) <= OpenOn(m.sets, k) {
      OpenOnShrink(m.sets, DoClose(m, i).sets, k);
    }
  }

  lemma CloseSetKeeps<S>(g: Heap<S>, m: State, e: Engine, i: nat)
    requires Inv(g, m, e) && i < |g.sets|
    ensures g.sets[i].Some? ==> g.stmts[g.sets[i].value].shares > 0
    ensures Inv(CloseSet(g, i), DoClose(m, i), e)
  {
    if g.sets[i].Some? {
      assert StatementOk(g.stmts[g.sets[i].value], e);
    }
    CloseSetStructure(g, e, i);
    CloseSetAgrees(g, m, i);
    CloseSetCounts(g, m, i);
  }

  lemma ClearAllStructure<S>(g: Heap<S>, e: Engine)
    requires Structure(g, e)
    ensures forall s :: s in g.stmts && g.stmts[s].cached ==> g.stmts[s].shares > 0
    ensures Structure(ClearAll(g), e)
  {
    forall s | s in g.stmts ensures StatementOk(g.stmts[s], e) {
    }
  }

  lemma ClearAllKeeps<S>(g: Heap<S>, m: State, e: Engine)
    requires Inv(g, m, e)
    ensures Inv(ClearAll(g), DoClear(m), e)
  {
    ClearAllStructure(g, e);
    var g', m' := ClearAll(g), DoClear(m);
    forall i | 0 <= i < |g'.sets|
      ensures m'.sets[i] == if g'.sets[i].None? then Closed else Seen(g'.stmts[g'.sets[i].value]) {
      if g.sets[i].Some? {
        assert StatementOk(g.stmts[g.sets[i].value], e);
      }
    }
    forall k ensures OpenOn(m'.sets, k) == 0 {
      NoneOpen(m'.sets, k);
    }
  }
}
