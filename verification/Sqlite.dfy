/** The native statements an FMDatabase drives, seen from outside: prepare, bind, step, reset
    and finalize over an arbitrary engine.  What a step answers may depend on the SQL text, the
    bindings, the contents the statement saw at each step since its last reset, and the contents
    now; nothing else is assumed of it. */
module Sqlite {

  datatype Value = Null | Text(text: string) | Integer(value: int)

  type Row = seq<Value>

  datatype StepResult = HasRow(row: Row) | Done | Busy | Locked | Interrupted | Failed | Misuse

  /** The database file, table by table. */
  type Content = map<string, seq<Row>>

  datatype Outcome = Outcome(result: StepResult, content: Content)

  datatype Engine = Engine(
    compiles: string -> bool,
    arity: string -> nat,
    run: (string, seq<Value>, seq<Content>, Content) -> Outcome)

  /** A native statement handle. */
  class Handle {
    const sql: string
    var bindings: seq<Value>
    var seen: seq<Content>      // the contents at each step since the last reset: the cursor
    var finalized: bool

    constructor (sql: string, parameters: nat)
      ensures this.sql == sql && bindings == seq(parameters, _ => Null)
      ensures seen == [] && !finalized
    {
      this.sql := sql;
      bindings := seq(parameters, _ => Null);
      seen := [];
      finalized := false;
    }

    /** Binding is refused (SQLITE_MISUSE) while the statement is part-way through its rows. */
    method Bind(position: nat, v: Value)
      requires !finalized && position < |bindings|
      modifies this`bindings
      ensures bindings == if seen == [] then old(bindings)[position := v] else old(bindings)
    {
      if seen == [] {
        bindings := bindings[position := v];
      }
    }

    method Reset()
      requires !finalized
      modifies this`seen
      ensures seen == []
    {
      seen := [];
    }

    /** Finalizing twice is an error, so the precondition is an obligation on every caller. */
    method Finalize()
      requires !finalized
      modifies this`finalized
      ensures finalized
    {
      finalized := true;
    }
  }

  /** An open database connection. */
  class Connection {
    const engine: Engine
    var content: Content

    constructor (engine: Engine, content: Content)
      ensures this.engine == engine && this.content == content
    {
      this.engine := engine;
      this.content := content;
    }

    method Prepare(sql: string) returns (h: Handle?)
      ensures h == null <==> !engine.compiles(sql)
      ensures h != null ==>
                fresh(h) && h.sql == sql && |h.bindings| == engine.arity(sql) &&
                h.seen == [] && !h.finalized
    {
      if engine.compiles(sql) {
        h := new Handle(sql, engine.arity(sql));
      } else {
        h := null;
      }
    }

    method Step(h: Handle) returns (r: StepResult)
      requires !h.finalized
      modifies this`content, h`seen
      ensures var o := engine.run(h.sql, h.bindings, old(h.seen), old(content));
              r == o.result && content == o.content
      ensures h.seen == old(h.seen) + [old(content)]
    {
      var o := engine.run(h.sql, h.bindings, h.seen, content);
      h.seen := h.seen + [content];
      content := o.content;
      r := o.result;
    }
  }
}
