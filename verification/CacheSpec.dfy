/** What a client of FMDatabase observes, told without any statement cache: every query and every
    update runs a statement of its own, prepared for it alone.  Module FMDB is proved to behave
    exactly like this. */
module CacheSpec {
  import opened Sqlite

  /** A result set.  Open holds a private statement: its SQL, its arguments and the contents seen
      at each step.  Orphaned: clearCachedStatements finalized its statement under it. */
  datatype ResultSet =
    | Open(sql: string, args: seq<Value>, seen: seq<Content>, cached: bool)
    | Orphaned
    | Closed

  /** sets: every result set ever opened, in order.  The last two fields count, for each SQL text
      and since the last clear, the executions run with caching on and the largest number of
      simultaneously open result sets opened with caching on. */
  datatype State = State(
    content: Content,
    caching: bool,
    sets: seq<ResultSet>,
    executions: map<string, nat>,
    peak: map<string, nat>)

  datatype Op =
    | Query(sql: string, args: seq<Value>)
    | Update(sql: string, args: seq<Value>)
    | Next(id: nat)
    | Close(id: nat)
    | SetCaching(on: bool)
    | Clear

  datatype Observation =
    | Opened(ok: bool)
    | Updated(ok: bool)
    | Fetched(result: StepResult)
    | Silent

  function Count(m: map<string, nat>, key: string): nat {
    if key in m then m[key] else 0
  }

  function OpenIndices(sets: seq<ResultSet>, sql: string): set<nat> {
    set i | 0 <= i < |sets| && sets[i].Open? && sets[i].cached && sets[i].sql == sql
  }

  /** How many result sets are open on sql that were opened with caching on. */
  function OpenOn(sets: seq<ResultSet>, sql: string): nat {
    |OpenIndices(sets, sql)|
  }

  function Max(a: nat, b: nat): nat { if a < b then b else a }

  function Executed(s: State, sql: string): State {
    if s.caching then s.(executions := s.executions[sql := Count(s.executions, sql) + 1]) else s
  }

  function DoQuery(e: Engine, s: State, sql: string, args: seq<Value>): State {
    if !e.compiles(sql) then s
    else
      var sets := s.sets + [Open(sql, args, [], s.caching)];
      var t := Executed(s, sql).(sets := sets);
      if s.caching then t.(peak := t.peak[sql := Max(Count(t.peak, sql), OpenOn(sets, sql))]) else t
  }

  function DoUpdate(e: Engine, s: State, sql: string, args: seq<Value>): (State, bool) {
    if !e.compiles(sql) then (s, false)
    else
      var o := e.run(sql, args, [], s.content);
      (Executed(s, sql).(content := o.content), o.result == Done)
  }

  /** One step of result set id.  Anything but a row closes it. */
  function DoNext(e: Engine, s: State, id: nat): (State, StepResult)
    requires id < |s.sets|
  {
    match s.sets[id]
    case Open(sql, args, seen, cached) =>
      var o := e.run(sql, args, seen, s.content);
      var rs := if o.result.HasRow? then Open(sql, args, seen + [s.content], cached) else Closed;
      (s.(content := o.content, sets := s.sets[id := rs]), o.result)
    case _ =>
      (s.(sets := s.sets[id := Closed]), Misuse)
  }

  function DoClose(s: State, id: nat): State
    requires id < |s.sets|
  {
    s.(sets := s.sets[id := Closed])
  }

  /** The step alone, before anything is closed. */
  function Stepped(e: Engine, s: State, id: nat): (State, StepResult)
    requires id < |s.sets|
  {
    match s.sets[id]
    case Open(sql, args, seen, cached) =>
      var o := e.run(sql, args, seen, s.content);
      (s.(content := o.content, sets := s.sets[id := Open(sql, args, seen + [s.content], cached)]), o.result)
    case _ => (s, Misuse)
  }

  lemma NextIsStepThenClose(e: Engine, s: State, id: nat)
    requires id < |s.sets|
    ensures var (t, r) := Stepped(e, s, id);
            |t.sets| == |s.sets| && DoNext(e, s, id) == (if r.HasRow? then t else DoClose(t, id), r)
  {
    var (t, r) := Stepped(e, s, id);
    assert t.sets[id := Closed] == s.sets[id := Closed];
  }

  function Orphan(rs: ResultSet): ResultSet {
    if rs.Open? && rs.cached then Orphaned else rs
  }

  function DoClear(s: State): State {
    s.(sets := seq(|s.sets|, i requires 0 <= i < |s.sets| => Orphan(s.sets[i])),
       executions := map[], peak := map[])
  }

  /** Argument counts match, and only result sets that exist are named. */
  predicate Legal(e: Engine, s: State, op: Op) {
    match op
    case Query(sql, args) => e.compiles(sql) ==> |args| == e.arity(sql)
    case Update(sql, args) => e.compiles(sql) ==> |args| == e.arity(sql)
    case Next(id) => id < |s.sets|
    case Close(id) => id < |s.sets|
    case _ => true
  }

  function Do(e: Engine, s: State, op: Op): (State, Observation)
    requires Legal(e, s, op)
  {
    match op
    case Query(sql, args) => (DoQuery(e, s, sql, args), Opened(e.compiles(sql)))
    case Update(sql, args) => var (t, ok) := DoUpdate(e, s, sql, args); (t, Updated(ok))
    case Next(id) => var (t, r) := DoNext(e, s, id); (t, Fetched(r))
    case Close(id) => (DoClose(s, id), Silent)
    case SetCaching(on) => (s.(caching := on), Silent)
    case Clear => (DoClear(s), Silent)
  }

  predicate LegalRun(e: Engine, s: State, ops: seq<Op>)
    decreases |ops|
  {
    ops == [] || (Legal(e, s, ops[0]) && LegalRun(e, Do(e, s, ops[0]).0, ops[1..]))
  }

  function RunAll(e: Engine, s: State, ops: seq<Op>): (State, seq<Observation>)
    requires LegalRun(e, s, ops)
    decreases |ops|
  {
    if ops == [] then (s, [])
    else
      var (t, o) := Do(e, s, ops[0]);
      var (u, rest) := RunAll(e, t, ops[1..]);
      (u, [o] + rest)
  }

  // ---------------------------------------------------------------- caching makes no difference

  /** The same result set, but perhaps with another answer to "was caching on?". */
  ghost predicate SameSet(a: ResultSet, b: ResultSet) {
    a == b || (a.Open? && b.Open? && a.sql == b.sql && a.args == b.args && a.seen == b.seen)
  }

  ghost predicate SameState(s: State, t: State) {
    s.content == t.content && |s.sets| == |t.sets| &&
    forall i :: 0 <= i < |s.sets| ==> SameSet(s.sets[i], t.sets[i])
  }

  /** The same calls, with caching switched on and off differently, and no clearing. */
  ghost predicate SameCalls(a: seq<Op>, b: seq<Op>) {
    |a| == |b| &&
    forall i :: 0 <= i < |a| ==> !a[i].Clear? && (a[i] == b[i] || (a[i].SetCaching? && b[i].SetCaching?))
  }

  lemma SameNext(e: Engine, s: State, t: State, id: nat)
    requires SameState(s, t) && id < |s.sets|
    ensures SameState(DoNext(e, s, id).0, DoNext(e, t, id).0) && DoNext(e, s, id).1 == DoNext(e, t, id).1
  {
    assert SameSet(s.sets[id], t.sets[id]);
  }

  lemma SameQuery(e: Engine, s: State, t: State, sql: string, args: seq<Value>)
    requires SameState(s, t)
    ensures SameState(DoQuery(e, s, sql, args), DoQuery(e, t, sql, args))
  {
  }

  lemma SameStep(e: Engine, s: State, t: State, a: Op, b: Op)
    requires SameState(s, t) && Legal(e, s, a) && !a.Clear?
    requires a == b || (a.SetCaching? && b.SetCaching?)
    ensures Legal(e, t, b)
    ensures SameState(Do(e, s, a).0, Do(e, t, b).0) && Do(e, s, a).1 == Do(e, t, b).1
  {
    match a {
      case Query(sql, args) => SameQuery(e, s, t, sql, args);
      case Next(id) => SameNext(e, s, t, id);
      case _ =>
    }
  }

  /** Whatever a client does, short of clearing the cache, it cannot tell whether statements are
      cached: every call answers the same, and the database ends up with the same content. */
  lemma {:induction false} CachingIsInvisible(e: Engine, s: State, t: State, a: seq<Op>, b: seq<Op>)
    requires SameState(s, t) && SameCalls(a, b) && LegalRun(e, s, a)
    ensures LegalRun(e, t, b)
    ensures RunAll(e, s, a).1 == RunAll(e, t, b).1
    ensures SameState(RunAll(e, s, a).0, RunAll(e, t, b).0)
    decreases |a|
  {
    if a != [] {
      SameStep(e, s, t, a[0], b[0]);
      CachingIsInvisible(e, Do(e, s, a[0]).0, Do(e, t, b[0]).0, a[1..], b[1..]);
    }
  }

  /** Clearing is not invisible: it ends exactly the result sets opened with caching on. */
  lemma ClearEndsCachedSets(e: Engine, s: State, id: nat)
    requires id < |s.sets|
    ensures s.sets[id].Open? && s.sets[id].cached ==> DoNext(e, DoClear(s), id).1 == Misuse
    ensures !(s.sets[id].Open? && s.sets[id].cached) ==> DoNext(e, DoClear(s), id).1 == DoNext(e, s, id).1
  {
  }

  /** An update is one step of a statement of its own, true if that was the last; nothing stays open. */
  lemma UpdateIsOneStep(e: Engine, s: State, sql: string, args: seq<Value>)
    requires e.compiles(sql)
    ensures var t, (v, ok) := DoQuery(e, s, sql, args), DoUpdate(e, s, sql, args);
            && |t.sets| == |s.sets| + 1
            && var (u, r) := DoNext(e, t, |s.sets|);
               v.content == u.content && ok == (r == Done) && v.sets == s.sets && v.executions == u.executions
  {
  }

  // ---------------------------------------------------------------- what a query yields

  /** n fetches in a row. */
  function Fetches(e: Engine, s: State, id: nat, n: nat): (State, seq<StepResult>)
    requires id < |s.sets|
    decreases n
  {
    if n == 0 then (s, [])
    else
      var (t, r) := DoNext(e, s, id);
      var (u, rest) := Fetches(e, t, id, n - 1);
      (u, [r] + rest)
  }

  /** What a statement run from its start answers at step k on contents that stay the same. */
  function Answer(e: Engine, sql: string, args: seq<Value>, content: Content, k: nat): StepResult {
    e.run(sql, args, seq(k, _ => content), content).result
  }

  /** Running the statement does not change the database. */
  ghost predicate ReadOnly(e: Engine, sql: string, args: seq<Value>) {
    forall seen, content :: e.run(sql, args, seen, content).content == content
  }

  lemma {:induction false} RowsOn(e: Engine, s: State, id: nat, k: nat, n: nat, sql: string, args: seq<Value>)
    requires id < |s.sets| && ReadOnly(e, sql, args)
    requires s.sets[id].Open? && s.sets[id].sql == sql && s.sets[id].args == args
    requires s.sets[id].seen == seq(k, _ => s.content)
    requires forall i :: k <= i < k + n ==> Answer(e, sql, args, s.content, i).HasRow?
    ensures var (t, got) := Fetches(e, s, id, n);
            && |got| == n && t.content == s.content && |t.sets| == |s.sets|
            && t.sets[id] == s.sets[id].(seen := seq(k + n, _ => s.content))
            && forall i :: 0 <= i < n ==> got[i] == Answer(e, sql, args, s.content, k + i)
    decreases n
  {
    if n > 0 {
      var (t, r) := DoNext(e, s, id);
      assert r == Answer(e, sql, args, s.content, k);
      assert seq(k, _ => s.content) + [s.content] == seq(k + 1, _ => s.content);
      RowsOn(e, t, id, k + 1, n - 1, sql, args);
    }
  }

  /** A query of n rows yields exactly the rows of its own text and arguments, first to last, then what
      ended them, and nothing more after that. */
  lemma QueryRows(e: Engine, s: State, sql: string, args: seq<Value>, n: nat)
    requires e.compiles(sql) && ReadOnly(e, sql, args)
    requires forall i :: 0 <= i < n ==> Answer(e, sql, args, s.content, i).HasRow?
    requires !Answer(e, sql, args, s.content, n).HasRow?
    ensures var id, t := |s.sets|, DoQuery(e, s, sql, args);
            && |t.sets| == id + 1
            && var (u, got) := Fetches(e, t, id, n);
               && |got| == n && |u.sets| == id + 1
               && (forall i :: 0 <= i < n ==> got[i] == Answer(e, sql, args, s.content, i))
               && var (v, last) := DoNext(e, u, id);
                  && last == Answer(e, sql, args, s.content, n) && v.content == s.content
                  && |v.sets| == id + 1 && DoNext(e, v, id).1 == Misuse
  {
    var id, t := |s.sets|, DoQuery(e, s, sql, args);
    assert t.sets[id] == Open(sql, args, [], s.caching);
    assert [] == seq(0, _ => s.content);
    RowsOn(e, t, id, 0, n, sql, args);
  }
}
