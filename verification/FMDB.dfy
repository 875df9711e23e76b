/** FMDatabase, FMResultSet and FMStatement: the statement cache, its sharing and its lifetimes.
    Every public call is proved to do to the client's view (ghost field model) what CacheSpec says
    a database without a cache would do. */
module FMDB {
  import opened Wrappers
  import opened Sqlite
  import opened CacheSpec
  import opened CacheState

  /** A prepared statement, shared between the cache and at most one result set. */
  class FMStatement {
    var inUse: bool
    var statement: Handle?
    var query: string
    var useCount: nat
    var shares: nat    // the reference count: the cache's share and the result set's

    constructor (h: Handle)
      ensures !inUse && statement == h && query == "" && useCount == 0 && shares == 0
    {
      inUse, statement, query, useCount, shares := false, h, "", 0, 0;
    }

    // Methods of a statement take the database that owns it as a ghost parameter, and keep what
    // that database knows of its statements in step.

    method FinalizeHandle(ghost owner: FMDatabase)
      requires owner.StatementsLinked(null) && this in owner.stmts && statement != null
      modifies owner`stmts, this`statement, statement`finalized
      ensures owner.StatementsLinked(null) && statement == null && old(statement).finalized
      ensures owner.stmts == old(owner.stmts)[this := old(owner.stmts)[this].(handle := None)]
    {
      assert owner.StatementLinked(this, null);
      statement.Finalize();
      statement := null;
      owner.stmts := owner.stmts[this := owner.stmts[this].(handle := None)];
    }

    method RewindHandle(ghost owner: FMDatabase)
      requires owner.StatementsLinked(null) && this in owner.stmts && statement != null
      modifies owner`stmts, statement`seen
      ensures owner.StatementsLinked(null) && statement.seen == [] && !statement.finalized
      ensures var st := old(owner.stmts)[this];
              && st.handle.Some?
              && owner.stmts == old(owner.stmts)[this := st.(handle := Some(st.handle.value.(seen := [])))]
    {
      assert owner.StatementLinked(this, null);
      statement.Reset();
      ghost var st := owner.stmts[this];
      owner.stmts := owner.stmts[this := st.(handle := Some(st.handle.value.(seen := [])))];
    }

    method ClearInUse(ghost owner: FMDatabase)
      requires owner.StatementsLinked(null) && this in owner.stmts
      modifies owner`stmts, this`inUse
      ensures owner.StatementsLinked(null) && !inUse
      ensures owner.stmts == old(owner.stmts)[this := old(owner.stmts)[this].(inUse := false)]
    {
      inUse := false;
      owner.stmts := owner.stmts[this := owner.stmts[this].(inUse := false)];
    }

    method Close(ghost owner: FMDatabase)
      requires owner.StatementsLinked(null) && this in owner.stmts
      modifies owner`stmts, this`statement, this`inUse, (if statement == null then {} else {statement})`finalized
      ensures statement == null && !inUse && (old(statement) != null ==> old(statement).finalized)
      ensures owner.StatementsLinked(null)
      ensures owner.stmts == old(owner.stmts)[this := ClosedStatement(old(owner.stmts)[this])]
    {
      assert owner.StatementLinked(this, null);
      if statement != null {
        FinalizeHandle(owner);
      }
      ClearInUse(owner);
    }

    method Reset(ghost owner: FMDatabase)
      requires owner.StatementsLinked(null) && this in owner.stmts
      modifies owner`stmts, this`inUse, (if statement == null then {} else {statement})`seen
      ensures !inUse && statement == old(statement)
      ensures statement != null ==> statement.seen == [] && !statement.finalized
      ensures owner.StatementsLinked(null)
      ensures owner.stmts == old(owner.stmts)[this := Rewound(old(owner.stmts)[this])]
    {
      assert owner.StatementLinked(this, null);
      if statement != null {
        RewindHandle(owner);
      }
      ClearInUse(owner);
    }

    /** One share fewer: the cache's, or the holder's. */
    method LoseShare(ghost owner: FMDatabase, ghost cached: bool, ghost holder: Option<nat>)
      requires owner.StatementsLinked(null) && this in owner.stmts && owner.stmts[this].shares > 0
      modifies owner`stmts, this`shares
      ensures owner.StatementsLinked(null) && shares == old(owner.stmts)[this].shares - 1
      ensures var st := old(owner.stmts)[this];
              var st' := st.(shares := st.shares - 1, cached := cached, holder := holder);
              owner.stmts == old(owner.stmts)[this := st']
    {
      assert owner.StatementLinked(this, null);
      shares := shares - 1;
      ghost var st := owner.stmts[this];
      owner.stmts := owner.stmts[this := st.(shares := st.shares - 1, cached := cached, holder := holder)];
    }
  }

  class FMResultSet {
    var parentDB: FMDatabase?
    var statement: FMStatement?
    var query: string

    constructor (parent: FMDatabase, stmt: FMStatement)
      modifies stmt`inUse, stmt`shares
      ensures parentDB == parent && statement == stmt && query == ""
      ensures stmt.inUse && stmt.shares == old(stmt.shares) + 1
    {
      parentDB, statement, query := parent, stmt, "";
      new;
      stmt.inUse := true;
      stmt.shares := stmt.shares + 1;
    }

    /** Lets go of a statement; dropping the last share runs the destructor, which closes. */
    static method ReleaseShare(st: FMStatement, ghost owner: FMDatabase)
      requires owner.StatementsLinked(null)
      requires st in owner.stmts && owner.stmts[st].shares > 0 && !owner.stmts[st].inUse
      modifies owner`stmts, st`statement, st`inUse, st`shares
      modifies (if st.statement == null then {} else {st.statement})`finalized
      ensures owner.StatementsLinked(null)
      ensures owner.stmts == old(owner.stmts)[st := Unshared(old(owner.stmts)[st])]
    {
      st.LoseShare(owner, owner.stmts[st].cached, None);
      if st.shares == 0 {
        st.Close(owner);
      }
    }

    /** Closing resets the statement and then lets go of it. */
    static method DropShare(st: FMStatement, ghost owner: FMDatabase)
      requires owner.StatementsLinked(null)
      requires st in owner.stmts && owner.stmts[st].shares > 0
      modifies owner`stmts, st, if st.statement == null then {} else {st.statement}
      ensures owner.StatementsLinked(null)
      ensures owner.stmts == old(owner.stmts)[st := Dropped(old(owner.stmts)[st])]
    {
      st.Reset(owner);
      ReleaseShare(st, owner);
    }

    /** The first half of close: reset the statement and drop this result set's share of it. */
    method DropStatement(ghost owner: FMDatabase, ghost id: nat)
      requires owner.Linked(null) && id < |owner.sets| && owner.sets[id] == this
      requires statement != null ==> statement in owner.stmts && owner.stmts[statement].shares > 0
      modifies this`statement, owner`stmts
      modifies if statement == null then {} else {statement}
      modifies if statement == null || statement.statement == null then {} else {statement.statement}
      ensures statement == null
      ensures owner.StatementsLinked(null) && owner.SetsLinked(id)
      ensures old(statement) == null ==> owner.stmts == old(owner.stmts)
      ensures old(statement) != null ==>
                var st := old(statement); owner.stmts == old(owner.stmts)[st := Dropped(old(owner.stmts)[st])]
    {
      if statement != null {
        var st := statement;
        statement := null;
        DropShare(st, owner);
      }
    }

    /** The second half of close: leave the database's list. */
    method LeaveParent(ghost owner: FMDatabase, ghost id: nat)
      requires owner.SetsLinked(id) && id < |owner.sets| && owner.sets[id] == this
      requires parentDB == null || parentDB == owner
      requires parentDB == null ==> this !in owner.open
      requires statement == null
      modifies this`parentDB, owner`open, owner`held
      ensures owner.SetsLinked(-1) && owner.held == old(owner.held)[id := None]
    {
      if parentDB != null {
        parentDB.ResultSetDidClose(this);
        parentDB := null;
      }
      owner.held := owner.held[id := None];
    }

    method Detach(ghost owner: FMDatabase, ghost id: nat)
      requires owner.Linked(null) && id < |owner.sets| && owner.sets[id] == this
      requires statement != null ==> statement in owner.stmts && owner.stmts[statement].shares > 0
      modifies this, owner.stmts.Keys, owner.handles, owner`stmts, owner`held, owner`open
      ensures owner.Linked(null) && owner.stmts.Keys == old(owner.stmts).Keys
      ensures owner.Now() == CloseSet(old(owner.Now()), id)
    {
      ghost var before := owner.Now();
      assert owner.SetLinked(this, owner.held[id]);
      assert statement != null ==> owner.StatementLinked(statement, null);
      DropStatement(owner, id);
      LeaveParent(owner, id);
      assert owner.Now() == CloseSet(before, id);
    }

    method Close(ghost owner: FMDatabase, ghost id: nat)
      requires owner.Valid() && id < |owner.sets| && owner.sets[id] == this
      modifies this, owner.stmts.Keys, owner.handles, owner`stmts, owner`held, owner`open, owner`model
      ensures owner.Valid() && owner.stmts.Keys == old(owner.stmts).Keys
      ensures owner.model == DoClose(old(owner.model), id)
    {
      owner.Facts(id);
      CloseSetKeeps(owner.Now(), owner.model, owner.db.engine, id);
      Detach(owner, id);
      owner.Conclude(DoClose(owner.model, id));
    }

    /** Steps the statement, if there is one to step. */
    method Step(ghost owner: FMDatabase, ghost id: nat) returns (r: StepResult)
      requires owner.Valid() && id < |owner.sets| && owner.sets[id] == this
      modifies owner.db, owner.stmts.Keys, owner.handles, owner`stmts, owner`held, owner`model
      ensures owner.Valid() && owner.stmts.Keys == old(owner.stmts).Keys
      ensures (owner.model, r) == Stepped(owner.db.engine, old(owner.model), id)
    {
      owner.Facts(id);
      if statement != null && statement.statement != null {
        r := parentDB.StepResultSet(statement, id);
      } else {
        r := Misuse;
      }
    }

    /** Steps the statement; whatever is not a row closes the result set. */
    method Next(ghost owner: FMDatabase, ghost id: nat) returns (r: StepResult)
      requires owner.Valid() && id < |owner.sets| && owner.sets[id] == this
      modifies this, owner.db, owner.stmts.Keys, owner.handles, owner`stmts, owner`held, owner`open, owner`model
      ensures owner.Valid() && owner.stmts.Keys == old(owner.stmts).Keys
      ensures (owner.model, r) == DoNext(owner.db.engine, old(owner.model), id)
    {
      NextIsStepThenClose(owner.db.engine, owner.model, id);
      r := Step(owner, id);
      if !r.HasRow? {
        Close(owner, id);
      }
    }
  }

  class FMDatabase {
    const db: Connection
    var shouldCache: bool
    var isExecuting: bool
    var cached: map<string, seq<FMStatement>>
    var open: seq<FMResultSet>

    // every native handle and result set there ever was, who owns each handle, what each statement
    // and each result set should hold, and the state as the client sees it
    ghost var handles: set<Handle>
    ghost var sets: seq<FMResultSet>
    ghost var owner: map<Handle, FMStatement>
    ghost var stmts: map<FMStatement, StatementState>
    ghost var held: seq<Option<FMStatement>>
    ghost var model: State

    /** The statements, the result sets and the cache as a value. */
    ghost function Now(): Heap<FMStatement>
      reads `stmts, `held, `cached
    {
      Heap(stmts, held, cached)
    }

    /** The fields of statement s are those in stmts; those of its handle too, unless a call is
        busy with that handle. */
    ghost predicate StatementLinked(s: FMStatement, busy: Handle?)
      requires s in stmts
      reads `handles, `stmts, `owner, stmts.Keys, handles
    {
      var st := stmts[s];
      && s.inUse == st.inUse && s.query == st.query && s.useCount == st.useCount && s.shares == st.shares
      && (s.statement == null <==> st.handle.None?)
      && (s.statement != null ==>
            && s.statement in handles && s.statement in owner && owner[s.statement] == s
            && (s.statement != busy ==>
                  && !s.statement.finalized
                  && st.handle == Some(HandleState(s.statement.sql, s.statement.bindings, s.statement.seen))))
    }

    ghost predicate SetLinked(r: FMResultSet, holds: Option<FMStatement>)
      reads `open, r
    {
      match holds
      case None => r.statement == null && r.parentDB == null && r !in open
      case Some(s) => r.statement == s && r.parentDB == this && r in open
    }

    /** Every statement is as stmts says, and every handle is finalized or its statement's. */
    ghost predicate StatementsLinked(busy: Handle?)
      reads `handles, `stmts, `owner, stmts.Keys, handles
    {
      && (forall s :: s in stmts ==> StatementLinked(s, busy))
      && (forall h :: h in handles ==>
            h.finalized || h == busy || (h in owner && owner[h] in stmts && owner[h].statement == h))
    }

    /** Every result set is as held says, except one that is just closing (if any). */
    ghost predicate SetsLinked(closing: int)
      reads `held, `sets, `open, sets
    {
      && |sets| == |held|
      && (forall i :: 0 <= i < |sets| && i != closing ==> SetLinked(sets[i], held[i]))
      && (forall i, j :: 0 <= i < j < |sets| ==> sets[i] != sets[j])
      && (forall i, j :: 0 <= i < j < |open| ==> open[i] != open[j])
      && (forall r :: r in open ==> r in sets)
    }

    ghost predicate Linked(busy: Handle?)
      reads `handles, `stmts, `held, `sets, `owner, `open, stmts.Keys, handles, sets
    {
      StatementsLinked(busy) && SetsLinked(-1)
    }

    /** The client's view has the contents and the caching switch there are. */
    ghost predicate Mirrored()
      reads `shouldCache, `model, db
    {
      shouldCache == model.caching && db.content == model.content
    }

    ghost predicate Valid()
      reads `handles, `stmts, `held, `sets, `owner, `open, `cached, `shouldCache, `model
      reads db, stmts.Keys, handles, sets
    {
      Linked(null) && Mirrored() && Inv(Now(), model, db.engine)
    }

    constructor (db: Connection)
      ensures this.db == db && !isExecuting && Valid()
      ensures model == State(db.content, false, [], map[], map[])
      ensures stmts == map[] && handles == {} && sets == []
    {
      this.db := db;
      shouldCache, isExecuting, cached, open := false, false, map[], [];
      handles, sets, owner := {}, [], map[];
      stmts, held := map[], [];
      model := State(db.content, false, [], map[], map[]);
      new;
      assert forall k :: UseCounts(Now(), k) == [];
      forall k ensures OpenOn(model.sets, k) == 0 {
        NoneOpen(model.sets, k);
      }
    }

    /** The first cached statement for query that is not in use. */
    method CachedStatementForQuery(query: string) returns (st: FMStatement?)
      ensures st != null ==> query in cached && st in cached[query] && !st.inUse
      ensures st == null && query in cached ==> forall i :: 0 <= i < |cached[query]| ==> cached[query][i].inUse
    {
      st := null;
      if query in cached {
        var statements := cached[query];
        var i := 0;
        while i < |statements|
          invariant 0 <= i <= |statements|
          invariant forall j :: 0 <= j < i ==> statements[j].inUse
        {
          if !statements[i].inUse {
            return statements[i];
          }
          i := i + 1;
        }
      }
    }

    method AddToCache(statement: FMStatement, query: string)
      modifies `cached
      ensures cached == AddTo(old(cached), query, statement)
    {
      if query in cached {
        cached := cached[query := cached[query] + [statement]];
      } else {
        cached := cached[query := [statement]];
        assert [] + [statement] == [statement];
      }
    }

    /** The cache's share of a statement. */
    method ShareWithCache(statement: FMStatement, query: string)
      requires StatementsLinked(null) && statement in stmts
      modifies `stmts, statement`query, statement`shares
      ensures StatementsLinked(null)
      ensures stmts == old(stmts)[statement := Shared(old(stmts)[statement], query)]
    {
      statement.query := query;
      statement.shares := statement.shares + 1;
      stmts := stmts[statement := Shared(stmts[statement], query)];
    }

    method SetCachedStatement(statement: FMStatement, query: string)
      requires StatementsLinked(null) && statement in stmts
      modifies `cached, `stmts, statement`query, statement`shares
      ensures StatementsLinked(null) && Now() == Filed(old(Now()), statement, query)
    {
      ShareWithCache(statement, query);
      AddToCache(statement, query);
    }

    /** Resetting an idle cached statement changes nothing: it was reset when it became idle. */
    method ResetIdle(statement: FMStatement)
      requires Valid() && statement in stmts && stmts[statement].cached && !statement.inUse
      modifies `stmts, statement`inUse, (if statement.statement == null then {} else {statement.statement})`seen
      ensures Valid() && stmts == old(stmts)
      ensures !statement.inUse && statement.statement != null && statement.statement == old(statement.statement)
      ensures statement.statement.seen == []
    {
      assert StatementOk(stmts[statement], db.engine) && StatementLinked(statement, null);
      statement.Reset(this);
      assert stmts == old(stmts);
    }

    /** pStmt is a handle for sql with no trace of earlier use: an idle cached statement's if
        there was one, and otherwise new. */
    ghost predicate Ready(sql: string, pStmt: Handle, statement: FMStatement?)
      reads `handles, `stmts, `held, `sets, `owner, `open, `cached, `shouldCache, stmts.Keys, handles, sets
    {
      && Linked(pStmt)
      && pStmt in handles && !pStmt.finalized && pStmt.sql == sql && pStmt.seen == []
      && |pStmt.bindings| == db.engine.arity(sql)
      && (statement != null ==> shouldCache && Idle(Now(), statement, sql) && statement.statement == pStmt)
      && (statement == null ==> pStmt !in owner && (shouldCache ==> NoneIdle(Now(), sql)))
    }

    /** The cached statement a call for sql will use, reset; null if none is idle. */
    method TakeIdle(sql: string) returns (statement: FMStatement?)
      requires Valid()
      modifies `stmts, stmts.Keys, handles
      ensures Valid() && stmts == old(stmts)
      ensures statement != null ==>
                && Idle(Now(), statement, sql)
                && statement.statement != null && statement.statement.seen == []
      ensures statement == null ==> NoneIdle(Now(), sql)
    {
      statement := CachedStatementForQuery(sql);
      if statement != null {
        assert StatementOk(stmts[statement], db.engine) && StatementLinked(statement, null);
        ResetIdle(statement);
      } else if sql in cached {
        forall i | 0 <= i < |cached[sql]| ensures stmts[cached[sql][i]].inUse {
          assert StatementLinked(cached[sql][i], null);
        }
      }
    }

    method PrepareNew(sql: string) returns (h: Handle?)
      requires Linked(null)
      modifies `handles, `isExecuting
      ensures h == null <==> !db.engine.compiles(sql)
      ensures isExecuting == (h != null && old(isExecuting))
      ensures h == null ==> Linked(null) && handles == old(handles)
      ensures h != null ==>
                && fresh(h) && handles == old(handles) + {h} && Linked(h) && h !in owner
                && !h.finalized && h.sql == sql && h.seen == [] && |h.bindings| == db.engine.arity(sql)
    {
      h := db.Prepare(sql);
      if h == null {
        isExecuting := false;
      } else {
        handles := handles + {h};
      }
    }

    /** Takes an idle cached statement for sql, or prepares a new handle. */
    method FindOrPrepare(sql: string) returns (pStmt: Handle?, statement: FMStatement?)
      requires Valid()
      modifies `stmts, stmts.Keys, handles, `handles, `isExecuting
      ensures pStmt == null <==> !db.engine.compiles(sql)
      ensures isExecuting == (pStmt != null && old(isExecuting))
      ensures pStmt == null ==> Linked(null) && handles == old(handles) && statement == null
      ensures pStmt != null ==> Ready(sql, pStmt, statement)
      ensures pStmt != null && statement == null ==> fresh(pStmt) && handles == old(handles) + {pStmt}
      ensures pStmt != null && statement != null ==> handles == old(handles)
      ensures stmts == old(stmts)
    {
      statement := null;
      if shouldCache {
        statement := TakeIdle(sql);
        if statement != null {
          assert StatementOk(stmts[statement], db.engine) && StatementLinked(statement, null);
          pStmt := statement.statement;
          return;
        }
      }
      pStmt := PrepareNew(sql);
    }

    method ExecuteQueryPrepareAndCheck(sql: string) returns (ok: bool, pStmt: Handle?, statement: FMStatement?)
      requires Valid()
      modifies `stmts, stmts.Keys, handles, `handles, `isExecuting
      ensures ok <==> !old(isExecuting) && db.engine.compiles(sql)
      ensures isExecuting == (ok || old(isExecuting))
      ensures !ok ==> Linked(null) && handles == old(handles) && statement == null && pStmt == null
      ensures ok ==> pStmt != null && Ready(sql, pStmt, statement)
      ensures ok && statement == null ==> fresh(pStmt) && handles == old(handles) + {pStmt}
      ensures ok && statement != null ==> handles == old(handles)
      ensures stmts == old(stmts)
    {
      if isExecuting {
        return false, null, null;
      }
      isExecuting := true;
      pStmt, statement := FindOrPrepare(sql);
      ok := pStmt != null;
    }

    /** A call with the wrong number of arguments gives the handle up. */
    method ExecuteQueryParametersCheck(inputParametersCount: nat, pStmt: Handle) returns (ok: bool)
      requires !pStmt.finalized
      modifies `isExecuting, pStmt`finalized
      ensures ok <==> inputParametersCount == |pStmt.bindings|
      ensures pStmt.finalized == !ok
      ensures isExecuting == (ok && old(isExecuting))
    {
      ok := inputParametersCount == |pStmt.bindings|;
      if !ok {
        pStmt.Finalize();
        isExecuting := false;
      }
    }

    /** Every parameter is bound anew: nothing of an earlier call's arguments is left. */
    method BindObjects(pStmt: Handle, args: seq<Value>)
      requires !pStmt.finalized && pStmt.seen == [] && |args| == |pStmt.bindings|
      modifies pStmt`bindings
      ensures pStmt.bindings == args
    {
      var i := 0;
      while i < |args|
        invariant 0 <= i <= |args| == |pStmt.bindings|
        invariant pStmt.bindings[..i] == args[..i]
      {
        pStmt.Bind(i, args[i]);
        i := i + 1;
      }
    }

    method WrapHandle(pStmt: Handle) returns (statement: FMStatement)
      requires StatementsLinked(pStmt) && pStmt in handles && !pStmt.finalized && pStmt !in owner
      modifies `owner, `stmts
      ensures fresh(statement) && statement !in old(stmts) && statement in stmts
      ensures StatementsLinked(null) && owner == old(owner)[pStmt := statement]
      ensures Now() == Wrapped(old(Now()), statement, HandleState(pStmt.sql, pStmt.bindings, pStmt.seen))
    {
      statement := new FMStatement(pStmt);
      owner := owner[pStmt := statement];
      stmts := Wrapped(Now(), statement, HandleState(pStmt.sql, pStmt.bindings, pStmt.seen)).stmts;
    }

    /** make_shared and setStatement, and setCachedStatement when caching is on. */
    method NewStatement(sql: string, pStmt: Handle) returns (statement: FMStatement)
      requires StatementsLinked(pStmt) && pStmt in handles && !pStmt.finalized
      requires pStmt !in owner && pStmt.sql == sql
      modifies `cached, `owner, `stmts
      ensures fresh(statement) && statement !in old(stmts) && statement in stmts
      ensures StatementsLinked(null) && owner == old(owner)[pStmt := statement]
      ensures Now() == Adopted(old(Now()), statement, HandleState(sql, pStmt.bindings, pStmt.seen), shouldCache)
    {
      statement := WrapHandle(pStmt);
      if shouldCache {
        SetCachedStatement(statement, sql);
      }
    }

    /** The result set's share of its statement. */
    method NewResultSet(sql: string, statement: FMStatement) returns (rs: FMResultSet)
      requires StatementsLinked(null) && statement in stmts
      modifies `stmts, statement
      ensures fresh(rs) && rs !in sets && rs.statement == statement && rs.parentDB == this
      ensures StatementsLinked(null) && stmts == Attached(old(Now()), statement).stmts
    {
      rs := new FMResultSet(this, statement);
      rs.query := sql;
      stmts := Attached(Now(), statement).stmts;
    }

    method ListResultSet(rs: FMResultSet, ghost statement: FMStatement)
      requires SetsLinked(-1) && rs !in sets && rs.statement == statement && rs.parentDB == this
      modifies `open, `sets, `held
      ensures SetsLinked(-1) && sets == old(sets) + [rs] && held == old(held) + [Some(statement)]
    {
      open := open + [rs];
      sets := sets + [rs];
      held := held + [Some(statement)];
      assert forall r :: r in open <==> r in old(open) || r == rs;
    }

    method OpenResultSet(sql: string, statement: FMStatement) returns (rs: FMResultSet)
      requires StatementsLinked(null) && SetsLinked(-1) && statement in stmts
      modifies `open, `sets, `stmts, `held, statement
      ensures fresh(rs) && sets == old(sets) + [rs]
      ensures StatementsLinked(null) && SetsLinked(-1) && Now() == Attached(old(Now()), statement)
    {
      rs := NewResultSet(sql, statement);
      ListResultSet(rs, statement);
    }

    /** Counts the use and ends the call. */
    method CountUse(statement: FMStatement)
      requires StatementsLinked(null) && statement in stmts
      modifies statement`useCount, `stmts, `isExecuting
      ensures StatementsLinked(null) && Now() == Counted(old(Now()), statement) && !isExecuting
    {
      statement.useCount := statement.useCount + 1;
      isExecuting := false;
      stmts := Counted(Now(), statement).stmts;
    }

    /** A call is done with the handle of cached statement. */
    ghost method Settle(statement: FMStatement)
      requires statement in stmts && statement.statement != null && !statement.statement.finalized
      requires StatementsLinked(statement.statement)
      modifies `stmts
      ensures StatementsLinked(null)
      ensures var h := statement.statement;
              Now() == Rebound(old(Now()), statement, HandleState(h.sql, h.bindings, h.seen))
    {
      var h := statement.statement;
      stmts := Rebound(Now(), statement, HandleState(h.sql, h.bindings, h.seen)).stmts;
    }

    /** The statement a call is to use, once its handle is bound. */
    method TakeStatement(sql: string, cachedStatement: FMStatement?, pStmt: Handle) returns (used: FMStatement)
      requires Linked(pStmt) && pStmt in handles && !pStmt.finalized && pStmt.sql == sql
      requires cachedStatement == null ==> pStmt !in owner
      requires cachedStatement != null ==> cachedStatement in stmts && cachedStatement.statement == pStmt
      modifies `cached, `owner, `stmts
      ensures Linked(null) && used in stmts
      ensures cachedStatement != null ==>
                && used == cachedStatement
                && Now() == Rebound(old(Now()), used, HandleState(sql, pStmt.bindings, pStmt.seen))
      ensures cachedStatement == null ==> fresh(used) && used !in old(stmts)
      ensures cachedStatement == null ==>
                Now() == Adopted(old(Now()), used, HandleState(sql, pStmt.bindings, pStmt.seen), shouldCache)
      ensures stmts.Keys == old(stmts).Keys + {used}
    {
      if cachedStatement == null {
        used := NewStatement(sql, pStmt);
      } else {
        Settle(cachedStatement);
        used := cachedStatement;
      }
    }

    /** What executeQueryImpl does once it has its statement. */
    method UseInResultSet(sql: string, statement: FMStatement) returns (rs: FMResultSet)
      requires Linked(null) && statement in stmts
      modifies `open, `sets, `stmts, `held, `isExecuting, statement
      ensures fresh(rs) && sets == old(sets) + [rs] && !isExecuting
      ensures Linked(null)
      ensures Now() == Counted(Attached(old(Now()), statement), statement)
      ensures stmts.Keys == old(stmts).Keys
    {
      rs := OpenResultSet(sql, statement);
      CountUse(statement);
    }

    method ExecuteQueryImpl(sql: string, cachedStatement: FMStatement?, pStmt: Handle)
      returns (rs: FMResultSet, used: FMStatement)
      requires Ready(sql, pStmt, cachedStatement)
      modifies pStmt, if cachedStatement == null then {} else {cachedStatement}
      modifies `cached, `stmts, `held, `owner, `isExecuting, `open, `sets
      ensures Linked(null) && !isExecuting
      ensures fresh(rs) && sets == old(sets) + [rs]
      ensures cachedStatement != null ==>
                used == cachedStatement && Now() == HitQuery(old(Now()), used, old(pStmt.bindings))
      ensures cachedStatement == null ==>
                fresh(used) && used !in old(stmts) &&
                Now() == MissQuery(old(Now()), used, sql, old(pStmt.bindings), shouldCache)
      ensures forall s :: s in stmts && s !in old(stmts) ==> fresh(s)
    {
      ghost var before, args := Now(), pStmt.bindings;
      used := TakeStatement(sql, cachedStatement, pStmt);
      ghost var taken := Now();
      rs := UseInResultSet(sql, used);
      QuerySteps(before, taken, Now(), used, sql, args, shouldCache, cachedStatement != null);
    }

    /** Runs one step of a handle the call in progress is busy with. */
    method StepBusy(pStmt: Handle) returns (r: StepResult)
      requires Linked(pStmt) && !pStmt.finalized
      modifies db`content, pStmt`seen
      ensures Linked(pStmt)
      ensures var o := db.engine.run(pStmt.sql, pStmt.bindings, old(pStmt.seen), old(db.content));
              r == o.result && db.content == o.content
    {
      r := db.Step(pStmt);
    }

    /** sqlite3_reset after an update; the statement keeps its bindings. */
    method ResetUsed(statement: FMStatement, pStmt: Handle)
      requires StatementsLinked(pStmt) && statement in stmts && statement.statement == pStmt && !pStmt.finalized
      modifies pStmt`seen, `stmts
      ensures StatementsLinked(null)
      ensures Now() == Rebound(old(Now()), statement, HandleState(pStmt.sql, pStmt.bindings, []))
    {
      pStmt.Reset();
      Settle(statement);
    }

    method FinalizeUnowned(pStmt: Handle)
      requires StatementsLinked(pStmt) && pStmt in handles && pStmt !in owner && !pStmt.finalized
      modifies pStmt`finalized, `isExecuting
      ensures StatementsLinked(null) && pStmt.finalized && !isExecuting
    {
      pStmt.Finalize();
      isExecuting := false;
    }

    /** An update leaves its statement reset, with the use counted. */
    method FinishUse(statement: FMStatement, pStmt: Handle)
      requires StatementsLinked(pStmt) && statement in stmts && statement.statement == pStmt && !pStmt.finalized
      modifies pStmt`seen, statement`useCount, `stmts, `isExecuting
      ensures StatementsLinked(null) && !isExecuting
      ensures Now() == Counted(Rebound(old(Now()), statement, HandleState(pStmt.sql, pStmt.bindings, [])), statement)
    {
      ResetUsed(statement, pStmt);
      CountUse(statement);
    }

    /** After the step: reset a cached statement, cache and reset a new one, or finalize. */
    method FinishUpdate(sql: string, cachedStatement: FMStatement?, pStmt: Handle)
      returns (ghost used: FMStatement?)
      requires StatementsLinked(pStmt) && pStmt in handles && !pStmt.finalized && pStmt.sql == sql
      requires cachedStatement == null ==> pStmt !in owner
      requires cachedStatement != null ==> Idle(Now(), cachedStatement, sql) && cachedStatement.statement == pStmt
      modifies pStmt, if cachedStatement == null then {} else {cachedStatement}
      modifies `cached, `stmts, `owner, `isExecuting
      ensures StatementsLinked(null) && !isExecuting
      ensures cachedStatement != null ==>
                used == cachedStatement && Now() == HitUpdate(old(Now()), used, old(pStmt.bindings))
      ensures cachedStatement == null && shouldCache ==>
                used != null && fresh(used) && used !in old(stmts) &&
                Now() == MissUpdate(old(Now()), used, sql, old(pStmt.bindings))
      ensures cachedStatement == null && !shouldCache ==> Now() == old(Now())
      ensures forall s :: s in stmts && s !in old(stmts) ==> fresh(s)
    {
      ghost var before, args, seen := Now(), pStmt.bindings, pStmt.seen;
      if cachedStatement != null {
        FinishUse(cachedStatement, pStmt);
        HitUpdateSteps(before, cachedStatement, args);
        used := cachedStatement;
      } else if shouldCache {
        var statement := NewStatement(sql, pStmt);
        FinishUse(statement, pStmt);
        MissUpdateSteps(before, statement, sql, args, seen);
        used := statement;
      } else {
        FinalizeUnowned(pStmt);
        used := null;
      }
    }

    method ExecuteUpdateImpl(sql: string, cachedStatement: FMStatement?, pStmt: Handle)
      returns (ok: bool, ghost used: FMStatement?)
      requires Ready(sql, pStmt, cachedStatement)
      modifies db`content, pStmt, if cachedStatement == null then {} else {cachedStatement}
      modifies `cached, `stmts, `owner, `isExecuting
      ensures Linked(null) && !isExecuting
      ensures var o := db.engine.run(sql, old(pStmt.bindings), [], old(db.content));
              ok == (o.result == Done) && db.content == o.content
      ensures cachedStatement != null ==>
                used == cachedStatement && Now() == HitUpdate(old(Now()), used, old(pStmt.bindings))
      ensures cachedStatement == null && shouldCache ==>
                used != null && fresh(used) && used !in old(stmts) &&
                Now() == MissUpdate(old(Now()), used, sql, old(pStmt.bindings))
      ensures cachedStatement == null && !shouldCache ==> Now() == old(Now())
      ensures forall s :: s in stmts && s !in old(stmts) ==> fresh(s)
    {
      var rc := StepBusy(pStmt);
      ok := rc == Done;
      used := FinishUpdate(sql, cachedStatement, pStmt);
    }

    /** A wrong argument count is harmless only if no cached statement would have been used: that
        statement's handle would be finalized and still cached. */
    ghost predicate Callable(sql: string, args: seq<Value>)
      reads `stmts, `held, `cached, `model, `isExecuting, `shouldCache
    {
      !isExecuting && db.engine.compiles(sql) ==>
        |args| == db.engine.arity(sql) || (shouldCache ==> NoneIdle(Now(), sql))
    }

    ghost predicate Runs(sql: string, args: seq<Value>)
      reads `isExecuting
    {
      !isExecuting && db.engine.compiles(sql) && |args| == db.engine.arity(sql)
    }

    /** A cached statement for sql has a handle that is finalized. */
    ghost predicate Spoiled(sql: string)
      reads `cached, if sql in cached then set s | s in cached[sql] else {}
      reads if sql in cached then set s | s in cached[sql] && s.statement != null :: s.statement else {}
    {
      sql in cached && exists s :: s in cached[sql] && s.statement != null && s.statement.finalized
    }

    /** That breaks the invariant. */
    lemma SpoiledIsInvalid(sql: string)
      ensures Spoiled(sql) ==> !Valid()
    {
      if Valid() && sql in cached {
        forall s | s in cached[sql] && s.statement != null ensures !s.statement.finalized {
          assert StatementLinked(s, null);
        }
      }
    }

    method BindReady(sql: string, args: seq<Value>, pStmt: Handle, ghost statement: FMStatement?)
      requires Ready(sql, pStmt, statement) && |args| == |pStmt.bindings|
      modifies pStmt`bindings
      ensures Ready(sql, pStmt, statement) && pStmt.bindings == args
    {
      BindObjects(pStmt, args);
    }

    /** The argument count, then the bindings.  A wrong count gives up the handle, even a cached
        statement's. */
    method CheckAndBind(sql: string, args: seq<Value>, pStmt: Handle, ghost statement: FMStatement?)
      returns (ok: bool)
      requires Ready(sql, pStmt, statement)
      modifies `isExecuting, pStmt
      ensures ok <==> |args| == db.engine.arity(sql)
      ensures isExecuting == (ok && old(isExecuting))
      ensures ok ==> Ready(sql, pStmt, statement) && pStmt.bindings == args
      ensures !ok && statement == null ==> Linked(null)
      ensures !ok && statement != null ==> Spoiled(sql)
    {
      ok := ExecuteQueryParametersCheck(|args|, pStmt);
      if ok {
        BindReady(sql, args, pStmt, statement);
      }
    }

    /** Prepare, check the argument count, bind. */
    method Begin(sql: string, args: seq<Value>) returns (pStmt: Handle?, statement: FMStatement?)
      requires Valid()
      modifies `stmts, stmts.Keys, handles, `handles, `isExecuting
      ensures pStmt != null <==> old(Runs(sql, args))
      ensures pStmt != null ==> Ready(sql, pStmt, statement) && pStmt.bindings == args
      ensures pStmt != null ==> pStmt in old(handles) || fresh(pStmt)
      ensures pStmt == null ==> isExecuting == old(isExecuting)
      ensures pStmt == null ==> (Valid() <==> old(Callable(sql, args)))
      ensures !old(Callable(sql, args)) ==> pStmt == null && Spoiled(sql)
      ensures forall h :: h in handles && h !in old(handles) ==> fresh(h)
      ensures stmts == old(stmts)
    {
      var ok;
      ok, pStmt, statement := ExecuteQueryPrepareAndCheck(sql);
      if ok {
        ok := CheckAndBind(sql, args, pStmt, statement);
      }
      SpoiledIsInvalid(sql);
      if !ok {
        pStmt, statement := null, null;
      }
    }

    /** A call is over: the client's view moves to m. */
    ghost method Conclude(m: State)
      requires Linked(null) && Inv(Now(), m, db.engine)
      requires shouldCache == m.caching && db.content == m.content
      modifies `model
      ensures Valid() && model == m
    {
      model := m;
    }

    /** A query is over: the new state is what a hit or a miss makes of the one before. */
    ghost method ConcludeQuery(before: Heap<FMStatement>, used: FMStatement, sql: string,
                               args: seq<Value>, hit: bool)
      requires Linked(null) && Mirrored() && Inv(before, model, db.engine)
      requires db.engine.compiles(sql) && |args| == db.engine.arity(sql)
      requires hit ==> shouldCache && Idle(before, used, sql) && Now() == HitQuery(before, used, args)
      requires !hit ==> used !in before.stmts && (shouldCache ==> NoneIdle(before, sql)) &&
                        Now() == MissQuery(before, used, sql, args, shouldCache)
      modifies `model
      ensures Valid() && model == DoQuery(db.engine, old(model), sql, args)
    {
      ghost var m := DoQuery(db.engine, model, sql, args);
      QueryKeeps(before, Now(), model, m, db.engine, used, sql, args, hit);
      Conclude(m);
    }

    method FinishQuery(sql: string, args: seq<Value>, pStmt: Handle, statement: FMStatement?)
      returns (rs: FMResultSet)
      requires Ready(sql, pStmt, statement) && pStmt.bindings == args && Inv(Now(), model, db.engine) && Mirrored()
      requires db.engine.compiles(sql)
      modifies pStmt, if statement == null then {} else {statement}
      modifies `cached, `stmts, `held, `owner, `isExecuting, `open, `sets, `model
      ensures Valid() && !isExecuting
      ensures fresh(rs) && sets == old(sets) + [rs] && model == DoQuery(db.engine, old(model), sql, args)
      ensures forall s :: s in stmts && s !in old(stmts) ==> fresh(s)
    {
      ghost var before := Now();
      var used;
      rs, used := ExecuteQueryImpl(sql, statement, pStmt);
      ConcludeQuery(before, used, sql, args, statement != null);
    }

    /** Runs a query.  The client's view moves as if a fresh statement had been prepared for it.  A
        wrong argument count spoils a cached statement that would have been used; nothing else
        does any harm. */
    method ExecuteQuery(sql: string, args: seq<Value>) returns (rs: FMResultSet?)
      requires Valid()
      modifies stmts.Keys, handles, `handles, `cached, `stmts, `held, `owner, `isExecuting, `open, `sets, `model
      ensures Valid() <==> old(Callable(sql, args))
      ensures !Valid() ==> Spoiled(sql)
      ensures isExecuting == old(isExecuting) && (rs != null <==> old(Runs(sql, args)))
      ensures rs != null ==> fresh(rs) && sets == old(sets) + [rs]
      ensures rs != null ==> model == DoQuery(db.engine, old(model), sql, args)
      ensures rs == null ==> sets == old(sets) && model == old(model)
      ensures forall h :: h in handles && h !in old(handles) ==> fresh(h)
      ensures forall s :: s in stmts && s !in old(stmts) ==> fresh(s)
    {
      rs := null;
      var pStmt, statement := Begin(sql, args);
      if pStmt != null {
        rs := FinishQuery(sql, args, pStmt, statement);
      }
    }

    ghost method ConcludeUpdate(before: Heap<FMStatement>, c: Content, used: FMStatement?, sql: string,
                                args: seq<Value>, hit: bool)
      requires Linked(null) && shouldCache == model.caching && c == model.content && Inv(before, model, db.engine)
      requires db.engine.compiles(sql) && |args| == db.engine.arity(sql)
      requires db.content == db.engine.run(sql, args, [], c).content
      requires hit ==>
                 shouldCache && used != null && Idle(before, used, sql) && Now() == HitUpdate(before, used, args)
      requires !hit && shouldCache ==>
                 && used != null && used !in before.stmts && NoneIdle(before, sql)
                 && Now() == MissUpdate(before, used, sql, args)
      requires !hit && !shouldCache ==> Now() == before
      modifies `model
      ensures Valid() && model == DoUpdate(db.engine, old(model), sql, args).0
    {
      ghost var m := DoUpdate(db.engine, model, sql, args).0;
      UpdateKeeps(before, Now(), model, m, db.engine, used, sql, args, hit);
      Conclude(m);
    }

    method FinishUpdating(sql: string, args: seq<Value>, pStmt: Handle, statement: FMStatement?) returns (ok: bool)
      requires Ready(sql, pStmt, statement) && pStmt.bindings == args && Inv(Now(), model, db.engine) && Mirrored()
      requires db.engine.compiles(sql)
      modifies pStmt, if statement == null then {} else {statement}
      modifies db, `cached, `stmts, `owner, `isExecuting, `model
      ensures Valid() && !isExecuting
      ensures (model, ok) == DoUpdate(db.engine, old(model), sql, args)
      ensures forall s :: s in stmts && s !in old(stmts) ==> fresh(s)
      ensures handles == old(handles)
    {
      ghost var before, c := Now(), db.content;
      ghost var used;
      ok, used := ExecuteUpdateImpl(sql, statement, pStmt);
      ConcludeUpdate(before, c, used, sql, args, statement != null);
    }

    /** Runs an update, with the effect of a freshly prepared one. */
    method ExecuteUpdate(sql: string, args: seq<Value>) returns (ok: bool)
      requires Valid()
      modifies db, stmts.Keys, handles, `handles, `cached, `stmts, `owner, `isExecuting, `model
      ensures Valid() <==> old(Callable(sql, args))
      ensures !Valid() ==> Spoiled(sql)
      ensures isExecuting == old(isExecuting)
      ensures old(Runs(sql, args)) ==> (model, ok) == DoUpdate(db.engine, old(model), sql, args)
      ensures !old(Runs(sql, args)) ==> model == old(model) && !ok
      ensures forall h :: h in handles && h !in old(handles) ==> fresh(h)
      ensures forall s :: s in stmts && s !in old(stmts) ==> fresh(s)
    {
      ok := false;
      var pStmt, statement := Begin(sql, args);
      if pStmt != null {
        ok := FinishUpdating(sql, args, pStmt, statement);
      }
    }

    method ResultSetDidClose(rs: FMResultSet)
      requires forall i, j :: 0 <= i < j < |open| ==> open[i] != open[j]
      modifies `open
      ensures forall i, j :: 0 <= i < j < |open| ==> open[i] != open[j]
      ensures forall r :: r in open <==> r in old(open) && r != rs
    {
      var i := 0;
      while i < |open| && open[i] != rs
        invariant 0 <= i <= |open| && rs !in open[..i]
      {
        i := i + 1;
      }
      if i < |open| {
        open := open[..i] + open[i + 1..];
      }
    }

    /** What the client sees of result set id, read off the heap. */
    lemma Facts(id: nat)
      requires Valid() && id < |sets|
      ensures |sets| == |held| == |model.sets|
      ensures sets[id].statement == null ==> held[id] == None && model.sets[id] == Closed
      ensures sets[id].statement != null ==>
                var st := sets[id].statement;
                && held[id] == Some(st) && st in stmts && sets[id].parentDB == this
                && stmts[st].shares > 0 && (st.statement == null ==> model.sets[id] == Orphaned)
                && (st.statement != null ==>
                      && st.statement in handles && !st.statement.finalized && model.sets[id].Open?
                      && st.statement.sql == model.sets[id].sql && st.statement.bindings == model.sets[id].args
                      && st.statement.seen == model.sets[id].seen)
    {
      assert SetLinked(sets[id], held[id]);
      if sets[id].statement != null {
        assert StatementLinked(sets[id].statement, null);
        assert StatementOk(stmts[sets[id].statement], db.engine);
      }
    }

    method StepHandle(statement: FMStatement, h: Handle) returns (r: StepResult)
      requires StatementsLinked(null) && statement in stmts && statement.statement == h
      requires h in handles && !h.finalized
      modifies db`content, h`seen, `stmts
      ensures StatementsLinked(null) && stmts == StepSet(old(Now()), statement, old(db.content)).stmts
      ensures var o := db.engine.run(h.sql, h.bindings, old(h.seen), old(db.content));
              r == o.result && db.content == o.content
    {
      assert StatementLinked(statement, null);
      ghost var c := db.content;
      r := db.Step(h);
      stmts := StepSet(Now(), statement, c).stmts;
    }

    method StepLinked(statement: FMStatement, h: Handle) returns (r: StepResult)
      requires Linked(null) && statement in stmts && statement.statement == h && h in handles && !h.finalized
      modifies db`content, h`seen, `stmts
      ensures Linked(null) && Now() == StepSet(old(Now()), statement, old(db.content))
      ensures var o := db.engine.run(h.sql, h.bindings, old(h.seen), old(db.content));
              r == o.result && db.content == o.content
    {
      r := StepHandle(statement, h);
    }

    ghost method ConcludeStep(before: Heap<FMStatement>, c: Content, id: nat)
      requires Linked(null) && shouldCache == model.caching && c == model.content && Inv(before, model, db.engine)
      requires id < |before.sets| && before.sets[id].Some? && id < |model.sets| && model.sets[id].Open?
      requires var s := before.sets[id].value;
               s in before.stmts && before.stmts[s].handle.Some? && Now() == StepSet(before, s, c)
      requires db.content == Stepped(db.engine, model, id).0.content
      modifies `model
      ensures Valid() && model == Stepped(db.engine, old(model), id).0
    {
      ghost var m := Stepped(db.engine, model, id).0;
      StepSetInv(before, model, db.engine, id, Now(), m);
      Conclude(m);
    }

    /** sqlite3_step on the handle of an open result set. */
    method StepResultSet(statement: FMStatement, ghost id: nat) returns (r: StepResult)
      requires Valid() && id < |sets| && sets[id].statement == statement && statement.statement != null
      modifies db, handles, `stmts, `model
      ensures Valid() && stmts.Keys == old(stmts).Keys
      ensures (model, r) == Stepped(db.engine, old(model), id)
    {
      Facts(id);
      ghost var before, c := Now(), db.content;
      r := StepLinked(statement, statement.statement);
      ConcludeStep(before, c, id);
    }

    method SetShouldCacheStatements(value: bool)
      requires Valid()
      modifies `shouldCache, `model
      ensures Valid() && model == old(model).(caching := value)
    {
      CachingKeeps(Now(), model, db.engine, value);
      shouldCache := value;
      model := model.(caching := value);
    }

    /** One more of ss, of which i are closed. */
    method CloseNext(ss: seq<FMStatement>, i: nat, ghost before: Heap<FMStatement>)
      requires StatementsLinked(null) && i < |ss| && ss[i] in stmts
      requires Now() == ClosedIn(before, SetOf(ss[..i]))
      modifies `stmts, ss[i], if ss[i].statement == null then {} else {ss[i].statement}
      ensures StatementsLinked(null) && Now() == ClosedIn(before, SetOf(ss[..i + 1]))
    {
      CloseOneMore(before, SetOf(ss[..i]), ss[i]);
      SetOfOneMore(ss, i);
      ss[i].Close(this);
    }

    method CloseEach(ss: seq<FMStatement>)
      requires StatementsLinked(null) && forall s :: s in ss ==> s in stmts
      modifies `stmts, stmts.Keys, handles
      ensures StatementsLinked(null) && Now() == ClosedIn(old(Now()), SetOf(ss))
    {
      ghost var before := Now();
      assert Now() == ClosedIn(before, SetOf(ss[..0]));
      for i := 0 to |ss|
        invariant StatementsLinked(null)
        invariant Now() == ClosedIn(before, SetOf(ss[..i]))
      {
        assert StatementLinked(ss[i], null);
        CloseNext(ss, i, before);
      }
      assert ss[..|ss|] == ss;
    }

    method CloseAll()
      requires StatementsLinked(null) && Caching(Now())
      modifies `stmts, stmts.Keys, handles
      ensures StatementsLinked(null) && Now() == ClosedIn(old(Now()), CachedUnder(old(Now()), old(cached).Keys))
    {
      ghost var before, done := Now(), {};
      assert Now() == ClosedIn(before, CachedUnder(before, {}));
      var keys := cached.Keys;
      while keys != {}
        invariant StatementsLinked(null) && keys !! done && keys + done == cached.Keys && cached == old(cached)
        invariant Now() == ClosedIn(before, CachedUnder(before, done))
        decreases keys
      {
        var k :| k in keys;
        CloseMore(before, CachedUnder(before, done), SetOf(cached[k]));
        CachedUnderOneMore(before, done, k);
        CloseEach(cached[k]);
        keys := keys - {k};
        done := done + {k};
      }
      assert done == cached.Keys;
    }

    method ReleaseCached(s: FMStatement)
      requires StatementsLinked(null) && s in stmts
      requires stmts[s].shares > 0 && stmts[s].handle == None && !stmts[s].inUse
      modifies `stmts, s
      ensures StatementsLinked(null)
      ensures stmts == old(stmts)[s := ReleasedStatement(old(stmts)[s])]
    {
      assert StatementLinked(s, null);
      s.LoseShare(this, false, stmts[s].holder);
      if s.shares == 0 {
        s.Close(this);
      }
    }

    /** Statements closed by the first round, ready to be let go of. */
    static ghost predicate Emptied(g: Heap<FMStatement>, c: set<FMStatement>) {
      forall s :: s in c ==>
        s in g.stmts && g.stmts[s].shares > 0 && g.stmts[s].handle == None && !g.stmts[s].inUse
    }

    method ReleaseNext(ss: seq<FMStatement>, i: nat, ghost before: Heap<FMStatement>)
      requires StatementsLinked(null) && Emptied(before, SetOf(ss)) && i < |ss|
      requires forall j, k :: 0 <= j < k < |ss| ==> ss[j] != ss[k]
      requires Now() == ReleasedIn(before, SetOf(ss[..i]))
      modifies `stmts, ss[i]
      ensures StatementsLinked(null) && Now() == ReleasedIn(before, SetOf(ss[..i + 1]))
    {
      assert ss[i] in SetOf(ss) && ss[i] !in SetOf(ss[..i]);
      ReleaseOneMore(before, SetOf(ss[..i]), ss[i]);
      SetOfOneMore(ss, i);
      ReleaseCached(ss[i]);
    }

    method ReleaseEach(ss: seq<FMStatement>)
      requires StatementsLinked(null) && Emptied(Now(), SetOf(ss))
      requires forall i, j :: 0 <= i < j < |ss| ==> ss[i] != ss[j]
      modifies `stmts, stmts.Keys
      ensures StatementsLinked(null) && Now() == ReleasedIn(old(Now()), SetOf(ss))
    {
      ghost var before := Now();
      assert Now() == ReleasedIn(before, SetOf(ss[..0]));
      for i := 0 to |ss|
        invariant StatementsLinked(null)
        invariant Now() == ReleasedIn(before, SetOf(ss[..i]))
      {
        assert ss[i] in SetOf(ss);
        ReleaseNext(ss, i, before);
      }
      assert ss[..|ss|] == ss;
    }

    /** The cache drops its share of every statement. */
    method ReleaseAll(ghost whole: Heap<FMStatement>)
      requires StatementsLinked(null) && Caching(whole) && whole.cached == cached
      requires Emptied(Now(), CachedUnder(whole, cached.Keys))
      modifies `stmts, stmts.Keys, handles
      ensures StatementsLinked(null) && Now() == ReleasedIn(old(Now()), CachedUnder(whole, old(cached).Keys))
    {
      ghost var before, done := Now(), {};
      assert Now() == ReleasedIn(before, CachedUnder(whole, {}));
      var keys := cached.Keys;
      while keys != {}
        invariant StatementsLinked(null) && keys !! done && keys + done == cached.Keys && cached == old(cached)
        invariant Now() == ReleasedIn(before, CachedUnder(whole, done))
        decreases keys
      {
        var k :| k in keys;
        CachedUnderOneMore(whole, done, k);
        ReleaseMore(before, CachedUnder(whole, done), SetOf(cached[k]));
        ReleaseEach(cached[k]);
        keys := keys - {k};
        done := done + {k};
      }
      assert done == cached.Keys;
    }

    /** The two rounds. */
    method ClearStatements(ghost before: Heap<FMStatement>)
      requires StatementsLinked(null) && Structure(before, db.engine) && Now() == before
      modifies `stmts, stmts.Keys, handles
      ensures StatementsLinked(null) && Now().(cached := map[]) == ClearAll(before)
    {
      ClearAllRounds(before, db.engine);
      CloseAll();
      ReleaseAll(before);
    }

    method ClearLinked()
      requires Linked(null) && Structure(Now(), db.engine)
      modifies `stmts, `cached, stmts.Keys, handles
      ensures Linked(null) && cached == map[]
      ensures Now() == ClearAll(old(Now()))
    {
      ClearStatements(Now());
      cached := map[];
    }

    /** Every cached statement's handle is finalized, whether or not a result set is using it. */
    method ClearCachedStatements()
      requires Valid()
      modifies `stmts, `cached, `model, stmts.Keys, handles
      ensures Valid() && cached == map[] && model == DoClear(old(model))
      ensures stmts.Keys == old(stmts).Keys
    {
      ghost var before, m := Now(), model;
      ClearLinked();
      ClearAllKeeps(before, m, db.engine);
      Conclude(DoClear(m));
    }

    // -------------------------------------------------------------- what holds in every state

    /** Two result sets never hold the same statement. */
    lemma NoSharing(i: nat, j: nat)
      requires Valid() && i < j < |sets| && sets[i].statement != null
      ensures sets[i].statement != sets[j].statement
    {
      Facts(i);
      Facts(j);
    }

    /** A cached statement is in use exactly when some open result set holds it. */
    lemma InUseIffHeld(k: string, n: nat)
      requires Valid() && k in cached && n < |cached[k]|
      ensures cached[k][n].inUse <==> exists i :: 0 <= i < |open| && open[i].statement == cached[k][n]
    {
      var s := cached[k][n];
      assert StatementLinked(s, null) && StatementOk(stmts[s], db.engine);
      if s.inUse {
        var id := stmts[s].holder.value;
        assert SetLinked(sets[id], held[id]);
      }
      if i :| 0 <= i < |open| && open[i].statement == s {
        assert open[i] in sets;
        var id :| 0 <= id < |sets| && sets[id] == open[i];
        Facts(id);
      }
    }

    /** A handle that has not been finalized is owned by exactly one statement. */
    lemma OneOwner(h: Handle, s: FMStatement, t: FMStatement)
      requires Valid() && h in handles
      requires s in stmts && t in stmts && s.statement == h && t.statement == h
      ensures s == t && !h.finalized
    {
      assert StatementLinked(s, null) && StatementLinked(t, null);
    }

    /** With no result set open and an empty cache, every handle ever prepared is finalized. */
    lemma NothingLeaks()
      requires Valid() && open == [] && cached == map[]
      ensures forall h :: h in handles ==> h.finalized
    {
      forall i | 0 <= i < |sets| ensures held[i].None? {
        assert SetLinked(sets[i], held[i]);
      }
      forall s | s in stmts ensures s.statement == null {
        assert StatementLinked(s, null) && StatementOk(stmts[s], db.engine);
      }
    }

    ghost function UseCountsOf(ss: seq<FMStatement>): seq<nat>
      reads ss
    {
      seq(|ss|, i requires 0 <= i < |ss| reads ss => ss[i].useCount)
    }

    /** Executions with caching on are counted once each, and statements do not pile up. */
    lemma Accounting(k: string)
      requires Valid()
      ensures var ss := if k in cached then cached[k] else [];
              Total(UseCountsOf(ss)) == Count(model.executions, k) && |ss| <= Count(model.peak, k) + 1
    {
      var ss := if k in cached then cached[k] else [];
      forall i | 0 <= i < |ss| ensures ss[i].useCount == stmts[ss[i]].useCount {
        assert StatementLinked(ss[i], null);
      }
      assert UseCountsOf(ss) == UseCounts(Now(), k);
    }
  }

  /** Taking the statement, attaching it to a result set and counting the use make up a query. */
  lemma QuerySteps(g: Heap<FMStatement>, taken: Heap<FMStatement>, g': Heap<FMStatement>, s: FMStatement,
                   sql: string, args: seq<Value>, caching: bool, hit: bool)
    requires hit ==> s in g.stmts && g.stmts[s].handle.Some? && g.stmts[s].handle.value.sql == sql
    requires var h := HandleState(sql, args, []); taken == if hit then Rebound(g, s, h) else Adopted(g, s, h, caching)
    requires s in taken.stmts && g' == Counted(Attached(taken, s), s)
    ensures hit ==> g' == HitQuery(g, s, args)
    ensures !hit ==> g' == MissQuery(g, s, sql, args, caching)
  {
    if hit {
      HitQuerySteps(g, s, args);
    } else {
      MissQuerySteps(g, s, sql, args, caching);
    }
  }

  lemma QueryKeeps(g: Heap<FMStatement>, g': Heap<FMStatement>, m: State, m': State, e: Engine,
                   s: FMStatement, sql: string, args: seq<Value>, hit: bool)
    requires Inv(g, m, e) && e.compiles(sql) && |args| == e.arity(sql)
    requires hit ==> m.caching && Idle(g, s, sql) && g' == HitQuery(g, s, args)
    requires !hit ==> s !in g.stmts && (m.caching ==> NoneIdle(g, sql)) && g' == MissQuery(g, s, sql, args, m.caching)
    requires m' == DoQuery(e, m, sql, args)
    ensures Inv(g', m', e)
  {
    if hit {
      HitQueryKeeps(g, m, e, s, sql, args);
    } else {
      MissQueryKeeps(g, m, e, s, sql, args);
    }
  }

  lemma UpdateKeeps(g: Heap<FMStatement>, g': Heap<FMStatement>, m: State, m': State, e: Engine,
                    s: FMStatement?, sql: string, args: seq<Value>, hit: bool)
    requires Inv(g, m, e) && e.compiles(sql) && |args| == e.arity(sql)
    requires hit ==> m.caching && s != null && Idle(g, s, sql) && g' == HitUpdate(g, s, args)
    requires !hit && m.caching ==> s != null && s !in g.stmts && NoneIdle(g, sql) && g' == MissUpdate(g, s, sql, args)
    requires !hit && !m.caching ==> g' == g
    requires m' == DoUpdate(e, m, sql, args).0
    ensures Inv(g', m', e)
  {
    if hit {
      HitUpdateKeeps(g, m, e, s, sql, args);
    } else if m.caching {
      MissUpdateKeeps(g, m, e, s, sql, args);
    }
  }

  // ---------------------------------------------------------------- whole runs

  /** A call that prepares nothing. */
  method PerformOnSets(database: FMDatabase, results: seq<FMResultSet>, op: Op) returns (o: Observation)
    requires database.Valid() && results == database.sets && !op.Query? && !op.Update?
    requires Legal(database.db.engine, database.model, op)
    modifies database.db, database.stmts.Keys, database.handles, set r | r in database.sets
    modifies database`stmts, database`held, database`open, database`cached, database`shouldCache, database`model
    ensures database.Valid() && database.stmts.Keys == old(database.stmts).Keys
    ensures (database.model, o) == Do(database.db.engine, old(database.model), op)
  {
    o := Silent;
    match op {
      case Next(id) =>
        var r := results[id].Next(database, id);
        o := Fetched(r);
      case Close(id) =>
        results[id].Close(database, id);
      case SetCaching(on) =>
        database.SetShouldCacheStatements(on);
      case Clear =>
        database.ClearCachedStatements();
    }
  }

  /** One call of a client that keeps every result set it has been given. */
  method Perform(database: FMDatabase, results: seq<FMResultSet>, op: Op)
    returns (o: Observation, results': seq<FMResultSet>)
    requires database.Valid() && !database.isExecuting && results == database.sets
    requires Legal(database.db.engine, database.model, op)
    modifies database, database.db, database.stmts.Keys, database.handles, set r | r in database.sets
    ensures database.Valid() && !database.isExecuting && results' == database.sets
    ensures forall h :: h in database.handles && h !in old(database.handles) ==> fresh(h)
    ensures forall s :: s in database.stmts && s !in old(database.stmts) ==> fresh(s)
    ensures forall r :: r in database.sets && r !in old(database.sets) ==> fresh(r)
    ensures (database.model, o) == Do(database.db.engine, old(database.model), op)
  {
    results' := results;
    match op {
      case Query(sql, args) =>
        var rs := database.ExecuteQuery(sql, args);
        if rs != null {
          results' := results + [rs];
        }
        o := Opened(rs != null);
      case Update(sql, args) =>
        var ok := database.ExecuteUpdate(sql, args);
        o := Updated(ok);
      case _ =>
        o := PerformOnSets(database, results, op);
    }
  }

  /** In any interleaving of calls over any number of open result sets, the client observes what
      it would observe if every statement were prepared afresh. */
  method Run(database: FMDatabase, results: seq<FMResultSet>, ops: seq<Op>)
    returns (os: seq<Observation>, results': seq<FMResultSet>)
    requires database.Valid() && !database.isExecuting && results == database.sets
    requires LegalRun(database.db.engine, database.model, ops)
    modifies database, database.db, database.stmts.Keys, database.handles, set r | r in database.sets
    ensures database.Valid() && !database.isExecuting && results' == database.sets
    ensures (database.model, os) == RunAll(database.db.engine, old(database.model), ops)
    decreases |ops|
  {
    if ops == [] {
      return [], results;
    }
    var o, rest;
    o, results' := Perform(database, results, ops[0]);
    rest, results' := Run(database, results', ops[1..]);
    os := [o] + rest;
  }
}
