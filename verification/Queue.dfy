/** FMDatabaseQueue: producers put tasks on a list, and one worker takes them off and runs them.
    A schedule interleaves the steps of both in any order; steps on the list are atomic. */
module Queue {
  import opened Wrappers

  /** The database, its journal and all. */
  type Store = map<string, seq<string>>

  datatype Act =
    | Begin(deferred: bool) | Commit | Rollback
    | StartSavePoint(index: nat) | RollbackTo(index: nat) | Release(index: nat)
    | Statement(sql: string)

  datatype Reply = Reply(ok: bool, rows: seq<string>)

  datatype Event = Event(act: Act, reply: Reply)

  type Engine = (Store, Act) -> (Store, Reply)

  /** What a block does next, given the replies it has had. */
  datatype Reaction = Call(act: Act) | Return(rollback: bool)

  type Block = seq<Reply> -> Reaction

  datatype Task =
    | InDatabase(block: Block)
    | InTransaction(deferred: bool, block: Block)
    | InSavePoint(block: Block)

  const LIMIT: nat := 0x1_0000_0000_0000_0000

  // ---------------------------------------------------------------- the run of one task

  function Acts(events: seq<Event>): seq<Act> {
    seq(|events|, i requires 0 <= i < |events| => events[i].act)
  }

  function Replies(events: seq<Event>): seq<Reply> {
    seq(|events|, i requires 0 <= i < |events| => events[i].reply)
  }

  /** Act i is what the block does after the replies before it. */
  predicate Chosen(block: Block, events: seq<Event>, i: nat)
    requires i < |events|
  {
    block(Replies(events[..i])) == Call(events[i].act)
  }

  predicate BlockSoFar(block: Block, events: seq<Event>) {
    forall i :: 0 <= i < |events| ==> Chosen(block, events, i)
  }

  predicate BlockRan(block: Block, events: seq<Event>, rollback: bool) {
    BlockSoFar(block, events) && block(Replies(events)) == Return(rollback)
  }

  function Opening(task: Task, index: nat): seq<Act> {
    match task
    case InDatabase(_) => []
    case InTransaction(deferred, _) => [Begin(deferred)]
    case InSavePoint(_) => [StartSavePoint(index)]
  }

  function Ending(task: Task, index: nat, rollback: bool): seq<Act> {
    match task
    case InDatabase(_) => []
    case InTransaction(_, _) => [if rollback then Rollback else Commit]
    case InSavePoint(_) => (if rollback then [RollbackTo(index)] else []) + [Release(index)]
  }

  /** A savepoint that could not be started: the block is not run. */
  predicate Refused(task: Task, index: nat, events: seq<Event>) {
    task.InSavePoint? && Acts(events) == Opening(task, index) && !events[0].reply.ok
  }

  /** What opens the task, and then n acts of its block. */
  predicate Opened(task: Task, index: nat, events: seq<Event>) {
    var n := |Opening(task, index)|;
    && n <= |events| && Acts(events[..n]) == Opening(task, index)
    && (task.InSavePoint? ==> events[0].reply.ok)
  }

  /** Opened, the block's own acts from first to last, and closed as the block asked. */
  predicate Whole(task: Task, index: nat, events: seq<Event>, rollback: bool) {
    var (n, m) := (|Opening(task, index)|, |events| - |Ending(task, index, rollback)|);
    && Opened(task, index, events) && n <= m
    && BlockRan(task.block, events[n..m], rollback)
    && Acts(events[m..]) == Ending(task, index, rollback)
  }

  predicate Complete(task: Task, index: nat, events: seq<Event>) {
    Refused(task, index, events) || Whole(task, index, events, true) || Whole(task, index, events, false)
  }

  // ---------------------------------------------------------------- what the database answers

  function StoreAfter(engine: Engine, s: Store, events: seq<Event>): Store {
    if events == [] then s
    else engine(StoreAfter(engine, s, events[..|events| - 1]), events[|events| - 1].act).0
  }

  /** Each reply is the engine's to its act, in order. */
  predicate Answered(engine: Engine, s: Store, events: seq<Event>) {
    events == [] ||
    var front, last := events[..|events| - 1], events[|events| - 1];
    Answered(engine, s, front) && last.reply == engine(StoreAfter(engine, s, front), last.act).1
  }

  lemma {:induction false} Split(engine: Engine, s: Store, a: seq<Event>, b: seq<Event>)
    ensures StoreAfter(engine, s, a + b) == StoreAfter(engine, StoreAfter(engine, s, a), b)
    ensures Answered(engine, s, a + b) <==> Answered(engine, s, a) && Answered(engine, StoreAfter(engine, s, a), b)
  {
    if b == [] {
      assert a + b == a;
    } else {
      assert (a + b)[..|a + b| - 1] == a + b[..|b| - 1];
      Split(engine, s, a, b[..|b| - 1]);
    }
  }

  lemma {:induction false} SameActs(engine: Engine, s: Store, a: seq<Event>, b: seq<Event>)
    requires Acts(a) == Acts(b) && Answered(engine, s, a) && Answered(engine, s, b)
    ensures a == b
  {
    assert |a| == |Acts(a)| == |b|;
    if a != [] {
      var n := |a| - 1;
      assert Acts(a)[n] == Acts(b)[n];
      assert Acts(a[..n]) == Acts(a)[..n] && Acts(b[..n]) == Acts(b)[..n];
      SameActs(engine, s, a[..n], b[..n]);
    }
  }

  lemma Halves(engine: Engine, s: Store, events: seq<Event>, n: nat)
    requires n <= |events| && Answered(engine, s, events)
    ensures Answered(engine, s, events[..n]) && Answered(engine, StoreAfter(engine, s, events[..n]), events[n..])
  {
    assert events == events[..n] + events[n..];
    Split(engine, s, events[..n], events[n..]);
  }

  /** A block acts the same way on the same database, however long it is let run. */
  lemma {:induction false} SameBlock(engine: Engine, s: Store, block: Block, a: seq<Event>, b: seq<Event>, n: nat)
    requires BlockSoFar(block, a) && BlockSoFar(block, b) && Answered(engine, s, a) && Answered(engine, s, b)
    requires n <= |a| && n <= |b|
    ensures a[..n] == b[..n]
    decreases n
  {
    if n > 0 {
      SameBlock(engine, s, block, a, b, n - 1);
      Halves(engine, s, a, n);
      Halves(engine, s, b, n);
      assert Chosen(block, a, n - 1) && Chosen(block, b, n - 1);
      assert Acts(a[..n]) == Acts(a[..n - 1]) + [a[n - 1].act];
      assert Acts(b[..n]) == Acts(b[..n - 1]) + [b[n - 1].act];
      SameActs(engine, s, a[..n], b[..n]);
    }
  }

  lemma StillRunning(block: Block, events: seq<Event>, n: nat)
    requires BlockSoFar(block, events) && n < |events|
    ensures block(Replies(events[..n])).Call?
  {
    assert Chosen(block, events, n);
  }

  lemma SameBlockRun(engine: Engine, s: Store, block: Block, a: seq<Event>, x: bool, b: seq<Event>, y: bool)
    requires BlockRan(block, a, x) && BlockRan(block, b, y) && Answered(engine, s, a) && Answered(engine, s, b)
    ensures a == b && x == y
  {
    var n := if |a| < |b| then |a| else |b|;
    SameBlock(engine, s, block, a, b, n);
    assert a[..|a|] == a && b[..|b|] == b;
    if |a| < |b| { StillRunning(block, b, n); } else if |b| < |a| { StillRunning(block, a, n); }
  }

  lemma Parts(task: Task, index: nat, events: seq<Event>, rollback: bool)
    returns (opening: seq<Event>, body: seq<Event>, ending: seq<Event>)
    requires Whole(task, index, events, rollback)
    ensures events == opening + (body + ending)
    ensures Acts(opening) == Opening(task, index) && Acts(ending) == Ending(task, index, rollback)
    ensures BlockRan(task.block, body, rollback)
  {
    var (n, m) := (|Opening(task, index)|, |events| - |Ending(task, index, rollback)|);
    opening, body, ending := events[..n], events[n..m], events[m..];
  }

  lemma SameWhole(engine: Engine, s: Store, task: Task, index: nat, a: seq<Event>, x: bool, b: seq<Event>, y: bool)
    requires Whole(task, index, a, x) && Whole(task, index, b, y) && Answered(engine, s, a) && Answered(engine, s, b)
    ensures a == b
  {
    var opening, body, ending := Parts(task, index, a, x);
    var opening', body', ending' := Parts(task, index, b, y);
    Split(engine, s, opening, body + ending);
    Split(engine, s, opening', body' + ending');
    SameActs(engine, s, opening, opening');
    var t := StoreAfter(engine, s, opening);
    Split(engine, t, body, ending);
    Split(engine, t, body', ending');
    SameBlockRun(engine, t, task.block, body, x, body', y);
    SameActs(engine, StoreAfter(engine, t, body), ending, ending');
  }

  /** A savepoint is refused or not by the database alone. */
  lemma SameRefusal(engine: Engine, s: Store, task: Task, index: nat, a: seq<Event>, b: seq<Event>)
    requires Refused(task, index, a) && Complete(task, index, b) && Answered(engine, s, a) && Answered(engine, s, b)
    ensures a == b
  {
    assert |Acts(a)| == |a| == 1;
    if Refused(task, index, b) {
      SameActs(engine, s, a, b);
    } else {
      Halves(engine, s, b, 1);
      SameActs(engine, s, a, b[..1]);
    }
  }

  /** On the same database a task always runs the same way. */
  lemma SameRun(engine: Engine, s: Store, task: Task, index: nat, a: seq<Event>, b: seq<Event>)
    requires Complete(task, index, a) && Complete(task, index, b) && Answered(engine, s, a) && Answered(engine, s, b)
    ensures a == b
  {
    if Refused(task, index, a) {
      SameRefusal(engine, s, task, index, a, b);
    } else if Refused(task, index, b) {
      SameRefusal(engine, s, task, index, b, a);
    } else {
      SameWhole(engine, s, task, index, a, Whole(task, index, a, true), b, Whole(task, index, b, true));
    }
  }

  // ---------------------------------------------------------------- one task after the other

  datatype Run = Run(task: Task, events: seq<Event>)

  function Tasks(runs: seq<Run>): (tasks: seq<Task>)
    ensures |tasks| == |runs|
  {
    if runs == [] then [] else Tasks(runs[..|runs| - 1]) + [runs[|runs| - 1].task]
  }

  function Trace(runs: seq<Run>): seq<Event> {
    if runs == [] then [] else Trace(runs[..|runs| - 1]) + runs[|runs| - 1].events
  }

  /** The savepoint counter once these tasks have been started. */
  function Numbered(tasks: seq<Task>): nat {
    if tasks == [] then 0
    else
      var before := Numbered(tasks[..|tasks| - 1]);
      if tasks[|tasks| - 1].InSavePoint? then (before + 1) % LIMIT else before
  }

  /** Each run is complete, and starts on the database the one before left. */
  predicate Serial(engine: Engine, s: Store, runs: seq<Run>) {
    runs == [] ||
    var front, last := runs[..|runs| - 1], runs[|runs| - 1];
    && Serial(engine, s, front)
    && Complete(last.task, Numbered(Tasks(runs)), last.events)
    && Answered(engine, StoreAfter(engine, s, Trace(front)), last.events)
  }

  lemma OneMore(engine: Engine, s: Store, a: seq<Run>, b: seq<Run>, n: nat)
    requires Serial(engine, s, a) && Serial(engine, s, b) && |a| == |b| == n + 1
    requires Tasks(a) == Tasks(b) && a[..n] == b[..n]
    ensures a[n] == b[n]
  {
    assert Tasks(a)[n] == a[n].task && Tasks(b)[n] == b[n].task;
    SameRun(engine, StoreAfter(engine, s, Trace(a[..n])), a[n].task, Numbered(Tasks(a)), a[n].events, b[n].events);
  }

  lemma EqualRuns(a: seq<Run>, b: seq<Run>, n: nat)
    requires |a| == |b| == n + 1 && a[..n] == b[..n] && a[n] == b[n]
    ensures a == b
  {
    assert a == a[..n] + [a[n]] && b == b[..n] + [b[n]];
  }

  lemma FrontTasks(a: seq<Run>, n: nat)
    requires |a| == n + 1
    ensures Tasks(a[..n]) == Tasks(a)[..n]
  {
  }

  /** What the tasks were, and their order, determines the whole trace. */
  lemma {:induction false} OneSerial(engine: Engine, s: Store, a: seq<Run>, b: seq<Run>)
    requires Serial(engine, s, a) && Serial(engine, s, b) && Tasks(a) == Tasks(b)
    ensures a == b
  {
    assert |a| == |b|;
    if a != [] {
      var n := |a| - 1;
      FrontTasks(a, n);
      FrontTasks(b, n);
      OneSerial(engine, s, a[..n], b[..n]);
      OneMore(engine, s, a, b, n);
      EqualRuns(a, b, n);
    }
  }

  // ---------------------------------------------------------------- how far a task has got

  /** Where the worker is in a task: before its opening statement, in its block, about to undo or
      to keep what the block did, or past the end. */
  datatype Stage = Entry | InBlock(replies: seq<Reply>, act: Act) | Closing(rollback: bool) | Over

  /** The block has had these replies. */
  function Enter(task: Task, replies: seq<Reply>): Stage {
    match task.block(replies)
    case Call(act) => InBlock(replies, act)
    case Return(rollback) => if task.InDatabase? then Over else Closing(rollback)
  }

  function First(task: Task): Stage {
    if task.InDatabase? then Enter(task, []) else Entry
  }

  /** The statement run at a stage. */
  function ActAt(task: Task, stage: Stage, index: nat): Act
    requires stage != Over
  {
    match stage
    case Entry => if task.InTransaction? then Begin(task.deferred) else StartSavePoint(index)
    case InBlock(_, act) => act
    case Closing(rollback) =>
      if task.InTransaction? then (if rollback then Rollback else Commit)
      else (if rollback then RollbackTo(index) else Release(index))
  }

  /** The stage after its statement was answered. */
  function Later(task: Task, stage: Stage, reply: Reply): Stage
    requires stage != Over
  {
    match stage
    case Entry => if task.InTransaction? || reply.ok then Enter(task, []) else Over
    case InBlock(replies, _) => Enter(task, replies + [reply])
    case Closing(rollback) => if task.InSavePoint? && rollback then Closing(false) else Over
  }

  /** The block is done after n events; it asked for one ending and another is left of it. */
  ghost predicate Leaving(task: Task, index: nat, events: seq<Event>, n: nat, asked: bool, left: bool) {
    var first := |Opening(task, index)|;
    && first <= n <= |events| && Opened(task, index, events) && !task.InDatabase?
    && BlockRan(task.block, events[first..n], asked)
    && Acts(events[n..]) + Ending(task, index, left) == Ending(task, index, asked)
  }

  /** The task has got to this stage with these events. */
  ghost predicate Reached(task: Task, index: nat, stage: Stage, events: seq<Event>) {
    match stage
    case Entry => events == [] && !task.InDatabase?
    case InBlock(replies, act) =>
      && Opened(task, index, events)
      && var body := events[|Opening(task, index)|..];
         BlockSoFar(task.block, body) && replies == Replies(body) && task.block(replies) == Call(act)
    case Closing(left) => exists n: nat, asked: bool :: Leaving(task, index, events, n, asked, left)
    case Over => Complete(task, index, events)
  }

  lemma EnterReached(task: Task, index: nat, events: seq<Event>)
    requires Opened(task, index, events)
    requires BlockSoFar(task.block, events[|Opening(task, index)|..])
    ensures Reached(task, index, Enter(task, Replies(events[|Opening(task, index)|..])), events)
  {
    var first := |Opening(task, index)|;
    match task.block(Replies(events[first..]))
    case Call(_) =>
    case Return(rollback) =>
      assert events[first..|events|] == events[first..];
      assert Acts(events[|events|..]) == [];
      if task.InDatabase? {
        assert Whole(task, index, events, rollback);
      } else {
        assert Leaving(task, index, events, |events|, rollback, rollback);
      }
  }

  lemma EntryReached(task: Task, index: nat, e: Event)
    requires !task.InDatabase? && e.act == ActAt(task, Entry, index)
    ensures Reached(task, index, Later(task, Entry, e.reply), [e])
  {
    assert Acts([e]) == [e.act] && [e][..1] == [e] && [e][1..] == [];
    if task.InTransaction? || e.reply.ok {
      assert Replies([]) == [];
      EnterReached(task, index, [e]);
    }
  }

  lemma BlockReached(task: Task, index: nat, replies: seq<Reply>, events: seq<Event>, e: Event)
    requires Reached(task, index, InBlock(replies, e.act), events)
    ensures Reached(task, index, Enter(task, replies + [e.reply]), events + [e])
  {
    var first := |Opening(task, index)|;
    var body := events[first..];
    assert (events + [e])[..first] == events[..first] && (events + [e])[first..] == body + [e];
    forall i | 0 <= i < |body + [e]| ensures Chosen(task.block, body + [e], i) {
      assert (body + [e])[..i] == body[..i];
      assert i < |body| ==> Chosen(task.block, body, i);
      assert body[..|body|] == body;
    }
    assert Replies(body + [e]) == replies + [e.reply];
    EnterReached(task, index, events + [e]);
  }

  lemma Extended(events: seq<Event>, e: Event, i: nat, j: nat)
    requires i <= j <= |events|
    ensures var more := events + [e];
            more[..i] == events[..i] && more[i..j] == events[i..j] && Acts(more[j..]) == Acts(events[j..]) + [e.act]
  {
    assert (events + [e])[j..] == events[j..] + [e];
  }

  /** The block's changes undone, its savepoint is still to be released. */
  lemma Undone(task: Task, index: nat, events: seq<Event>, n: nat, asked: bool, e: Event)
    requires task.InSavePoint? && Leaving(task, index, events, n, asked, true) && e.act == RollbackTo(index)
    ensures Leaving(task, index, events + [e], n, asked, false)
  {
    Extended(events, e, 1, n);
  }

  lemma Closed(task: Task, index: nat, events: seq<Event>, n: nat, asked: bool, left: bool, e: Event)
    requires Leaving(task, index, events, n, asked, left) && Ending(task, index, left) == [e.act]
    ensures Complete(task, index, events + [e])
  {
    Extended(events, e, |Opening(task, index)|, n);
    assert |Acts((events + [e])[n..])| == |events + [e]| - n;
    assert Whole(task, index, events + [e], asked);
  }

  lemma ClosingReached(task: Task, index: nat, left: bool, events: seq<Event>, e: Event)
    requires Reached(task, index, Closing(left), events) && e.act == ActAt(task, Closing(left), index)
    ensures Reached(task, index, Later(task, Closing(left), e.reply), events + [e])
  {
    var n: nat, asked: bool :| Leaving(task, index, events, n, asked, left);
    if task.InSavePoint? && left {
      Undone(task, index, events, n, asked, e);
    } else {
      Closed(task, index, events, n, asked, left, e);
    }
  }

  /** Whatever the database answers, the task is one stage further. */
  lemma Reaches(task: Task, index: nat, stage: Stage, events: seq<Event>, e: Event)
    requires stage != Over && Reached(task, index, stage, events) && e.act == ActAt(task, stage, index)
    ensures Reached(task, index, Later(task, stage, e.reply), events + [e])
  {
    match stage
    case Entry => assert events + [e] == [e]; EntryReached(task, index, e);
    case InBlock(replies, _) => BlockReached(task, index, replies, events, e);
    case Closing(left) => ClosingReached(task, index, left, events, e);
  }

  lemma FirstReached(task: Task, index: nat)
    ensures Reached(task, index, First(task), [])
  {
    if task.InDatabase? {
      assert Replies([]) == [];
      EnterReached(task, index, []);
    }
  }

  lemma NumberedMore(tasks: seq<Task>, task: Task)
    ensures Numbered(tasks + [task]) == if task.InSavePoint? then (Numbered(tasks) + 1) % LIMIT else Numbered(tasks)
  {
    assert (tasks + [task])[..|tasks|] == tasks;
  }

  lemma One(engine: Engine, s: Store, e: Event)
    requires e.reply == engine(s, e.act).1
    ensures Answered(engine, s, [e]) && StoreAfter(engine, s, [e]) == engine(s, e.act).0
  {
    assert [e][..0] == [];
  }

  lemma DoneMore(engine: Engine, s: Store, runs: seq<Run>, run: Run)
    requires Serial(engine, s, runs) && Complete(run.task, Numbered(Tasks(runs) + [run.task]), run.events)
    requires Answered(engine, StoreAfter(engine, s, Trace(runs)), run.events)
    ensures Serial(engine, s, runs + [run])
    ensures Tasks(runs + [run]) == Tasks(runs) + [run.task] && Trace(runs + [run]) == Trace(runs) + run.events
    ensures StoreAfter(engine, s, Trace(runs + [run])) ==
            StoreAfter(engine, StoreAfter(engine, s, Trace(runs)), run.events)
  {
    assert (runs + [run])[..|runs|] == runs;
    Split(engine, s, Trace(runs), run.events);
  }

  // ---------------------------------------------------------------- the queue and its worker

  /** The worker is at the test of the stop flag, past it and at the list, in a task, or out of
      its loop. */
  datatype Worker = Looping | Looking | Running(task: Task, stage: Stage) | Exited

  /** The queue, and what has happened to it: what was submitted, what is done, what the running
      task has done, and how many tasks had been begun when stop was set.  The one the worker is
      looking for counts as begun.  number is in the name of the running task's savepoint. */
  datatype State = State(
    store: Store, tasks: seq<Task>, stop: bool, worker: Worker, savePointIndex: nat, number: nat,
    submitted: seq<Task>, done: seq<Run>, current: seq<Event>, limit: nat)

  function Started(store: Store): State {
    State(store, [], false, Looping, 0, 0, [], [], [], 0)
  }

  function Begun(s: State): nat {
    |s.done| + if s.worker.Running? || s.worker.Looking? then 1 else 0
  }

  function Submit(s: State, task: Task): State {
    s.(tasks := s.tasks + [task], submitted := s.submitted + [task])
  }

  function Stopped(s: State): State {
    s.(stop := true, limit := if s.stop then s.limit else Begun(s))
  }

  function Taken(s: State): State {
    s.(worker := if s.tasks == [] then Looping else Running(s.tasks[0], First(s.tasks[0])))
  }

  /** A savepoint takes its number as it is started. */
  function Numbering(s: State): State
    requires s.worker.Running?
  {
    if s.worker.stage.Entry? && s.worker.task.InSavePoint? then
      var n := (s.savePointIndex + 1) % LIMIT;
      s.(savePointIndex := n, number := n)
    else s
  }

  function Acted(engine: Engine, s: State): State
    requires s.worker.Running? && !s.worker.stage.Over?
  {
    var t := Numbering(s);
    var act := ActAt(s.worker.task, s.worker.stage, t.number);
    var (next, reply) := engine(s.store, act);
    t.(store := next, current := s.current + [Event(act, reply)],
       worker := Running(s.worker.task, Later(s.worker.task, s.worker.stage, reply)))
  }

  function Popped(s: State): State
    requires s.worker.Running?
  {
    s.(tasks := if s.tasks == [] then [] else s.tasks[1..], worker := Looping,
       done := s.done + [Run(s.worker.task, s.current)], current := [])
  }

  function Worked(engine: Engine, s: State): State {
    match s.worker
    case Looping => s.(worker := if s.stop then Exited else Looking)
    case Looking => Taken(s)
    case Running(_, stage) => if stage == Over then Popped(s) else Acted(engine, s)
    case Exited => s
  }

  // ---------------------------------------------------------------- what every step keeps

  /** The number a savepoint of the running task has, or would have. */
  function Index(s: State): nat
    requires s.worker.Running?
  {
    Numbered(Tasks(s.done) + [s.worker.task])
  }

  ghost predicate FirstInFirstOut(s: State) {
    s.submitted == Tasks(s.done) + s.tasks
  }

  /** What the database saw is the done tasks one after the other, then as much of the running
      one as has been run. */
  ghost predicate OneAtATime(engine: Engine, start: Store, s: State) {
    && Serial(engine, start, s.done)
    && Answered(engine, StoreAfter(engine, start, Trace(s.done)), s.current)
    && s.store == StoreAfter(engine, StoreAfter(engine, start, Trace(s.done)), s.current)
  }

  ghost predicate UnderWay(s: State) {
    match s.worker
    case Running(task, stage) =>
      && s.tasks != [] && s.tasks[0] == task
      && Reached(task, Index(s), stage, s.current)
      && s.savePointIndex == (if stage.Entry? then Numbered(Tasks(s.done)) else Index(s))
      && (task.InSavePoint? && !stage.Entry? ==> s.number == Index(s))
    case _ => s.current == [] && s.savePointIndex == Numbered(Tasks(s.done))
  }

  /** Once stop is set no task is begun that the worker was not at already. */
  predicate Stopping(s: State) {
    && (s.worker.Exited? ==> s.stop)
    && (s.stop ==> Begun(s) <= s.limit)
  }

  ghost predicate Inv(engine: Engine, start: Store, s: State) {
    FirstInFirstOut(s) && OneAtATime(engine, start, s) && UnderWay(s) && Stopping(s)
  }

  lemma StartedKeeps(engine: Engine, start: Store)
    ensures Inv(engine, start, Started(start))
  {
  }

  lemma SubmitKeeps(engine: Engine, start: Store, s: State, task: Task)
    requires Inv(engine, start, s)
    ensures Inv(engine, start, Submit(s, task))
  {
    Regroup(Tasks(s.done), s.tasks, [task]);
  }

  lemma TakenKeeps(engine: Engine, start: Store, s: State)
    requires Inv(engine, start, s) && s.worker.Looking?
    ensures Inv(engine, start, Taken(s))
  {
    if s.tasks != [] {
      FirstReached(s.tasks[0], Index(Taken(s)));
      NumberedMore(Tasks(s.done), s.tasks[0]);
    }
  }

  lemma ActedOrder(engine: Engine, start: Store, s: State)
    requires OneAtATime(engine, start, s) && s.worker.Running? && !s.worker.stage.Over?
    ensures OneAtATime(engine, start, Acted(engine, s))
  {
    var t := Acted(engine, s);
    var e := t.current[|s.current|];
    Split(engine, StoreAfter(engine, start, Trace(s.done)), s.current, [e]);
    One(engine, s.store, e);
  }

  lemma ActedUnderWay(engine: Engine, s: State)
    requires UnderWay(s) && s.worker.Running? && !s.worker.stage.Over?
    ensures UnderWay(Acted(engine, s))
  {
    var t := Acted(engine, s);
    NumberedMore(Tasks(s.done), s.worker.task);
    Reaches(s.worker.task, Index(s), s.worker.stage, s.current, t.current[|s.current|]);
  }

  lemma ActedKeeps(engine: Engine, start: Store, s: State)
    requires Inv(engine, start, s) && s.worker.Running? && !s.worker.stage.Over?
    ensures Inv(engine, start, Acted(engine, s))
  {
    ActedOrder(engine, start, s);
    ActedUnderWay(engine, s);
  }

  lemma PoppedKeeps(engine: Engine, start: Store, s: State)
    requires Inv(engine, start, s) && s.worker.Running? && s.worker.stage.Over?
    ensures Inv(engine, start, Popped(s))
  {
    PoppedSerial(engine, start, s);
    PoppedOrder(s);
  }

  lemma PoppedSerial(engine: Engine, start: Store, s: State)
    requires OneAtATime(engine, start, s) && UnderWay(s) && s.worker.Running? && s.worker.stage.Over?
    ensures OneAtATime(engine, start, Popped(s)) && UnderWay(Popped(s))
  {
    DoneMore(engine, start, s.done, Run(s.worker.task, s.current));
  }

  lemma PoppedOrder(s: State)
    requires FirstInFirstOut(s) && s.worker.Running? && s.tasks != [] && s.tasks[0] == s.worker.task
    ensures FirstInFirstOut(Popped(s))
  {
    var run := Run(s.worker.task, s.current);
    assert (s.done + [run])[..|s.done|] == s.done;
    assert s.tasks == [s.worker.task] + s.tasks[1..];
    Regroup(Tasks(s.done), [s.worker.task], s.tasks[1..]);
  }

  lemma WorkedKeeps(engine: Engine, start: Store, s: State)
    requires Inv(engine, start, s)
    ensures Inv(engine, start, Worked(engine, s))
  {
    match s.worker
    case Looping =>
    case Looking => TakenKeeps(engine, start, s);
    case Running(_, stage) =>
      if stage == Over { PoppedKeeps(engine, start, s); } else { ActedKeeps(engine, start, s); }
    case Exited =>
  }

  datatype Turn = Put(task: Task) | Stop | Work

  function Do(engine: Engine, s: State, turn: Turn): State {
    match turn
    case Put(task) => Submit(s, task)
    case Stop => Stopped(s)
    case Work => Worked(engine, s)
  }

  function After(engine: Engine, s: State, schedule: seq<Turn>): State
    decreases |schedule|
  {
    if schedule == [] then s else After(engine, Do(engine, s, schedule[0]), schedule[1..])
  }

  lemma {:induction false} AfterKeeps(engine: Engine, start: Store, s: State, schedule: seq<Turn>)
    requires Inv(engine, start, s)
    ensures Inv(engine, start, After(engine, s, schedule))
    decreases |schedule|
  {
    if schedule != [] {
      DoKeeps(engine, start, s, schedule[0]);
      AfterKeeps(engine, start, Do(engine, s, schedule[0]), schedule[1..]);
    }
  }

  lemma DoKeeps(engine: Engine, start: Store, s: State, turn: Turn)
    requires Inv(engine, start, s)
    ensures Inv(engine, start, Do(engine, s, turn))
  {
    match turn
    case Put(task) => SubmitKeeps(engine, start, s, task);
    case Stop =>
    case Work => WorkedKeeps(engine, start, s);
  }

  // ---------------------------------------------------------------- whole runs

  /** The tasks producers put, in the order they did. */
  function Puts(schedule: seq<Turn>): seq<Task> {
    if schedule == [] then []
    else (if schedule[0].Put? then [schedule[0].task] else []) + Puts(schedule[1..])
  }

  /** What one turn leaves alone. */
  lemma OneTurn(engine: Engine, s: State, turn: Turn)
    ensures var t := Do(engine, s, turn);
            && t.submitted == s.submitted + (if turn.Put? then [turn.task] else [])
            && s.done <= t.done
            && (s.stop ==> t.stop && t.limit == s.limit)
            && (s.worker.Exited? ==> t.worker.Exited? && t.store == s.store && t.done == s.done)
  {
  }

  lemma {:induction false} Turns(engine: Engine, s: State, schedule: seq<Turn>)
    ensures var t := After(engine, s, schedule);
            && t.submitted == s.submitted + Puts(schedule)
            && s.done <= t.done
            && (s.stop ==> t.stop && t.limit == s.limit)
            && (s.worker.Exited? ==> t.worker.Exited? && t.store == s.store && t.done == s.done)
    decreases |schedule|
  {
    if schedule != [] {
      OneTurn(engine, s, schedule[0]);
      Turns(engine, Do(engine, s, schedule[0]), schedule[1..]);
    }
  }

  /** Whatever the schedule: what was submitted is what is done, in that order, then the running
      task and the pending ones, and each done task ran whole on what the one before it left. */
  lemma EveryRun(engine: Engine, start: Store, s: State, schedule: seq<Turn>)
    requires Inv(engine, start, s)
    ensures var t := After(engine, s, schedule);
            && t.submitted == s.submitted + Puts(schedule) == Tasks(t.done) + t.tasks
            && (t.worker.Running? ==> t.tasks != [] && t.tasks[0] == t.worker.task)
            && OneAtATime(engine, start, t)
            && s.done <= t.done
  {
    Turns(engine, s, schedule);
    AfterKeeps(engine, start, s, schedule);
  }

  /** So it is from the start of any queue. */
  lemma FromTheStart(engine: Engine, start: Store, schedule: seq<Turn>)
    ensures var t := After(engine, Started(start), schedule);
            && Puts(schedule) == Tasks(t.done) + t.tasks
            && (t.worker.Running? ==> t.tasks != [] && t.tasks[0] == t.worker.task)
            && OneAtATime(engine, start, t)
  {
    StartedKeeps(engine, start);
    EveryRun(engine, start, Started(start), schedule);
  }

  /** Setting stop lets only the task in hand be finished, and what is finished by then is a
      prefix of what was submitted. */
  lemma StopsSoon(engine: Engine, start: Store, s: State, schedule: seq<Turn>)
    requires Inv(engine, start, s) && !s.stop
    ensures var t := After(engine, Stopped(s), schedule);
            && |t.done| <= |s.done| + (if s.worker.Running? || s.worker.Looking? then 1 else 0)
            && Tasks(t.done) <= s.submitted + Puts(schedule)
  {
    Turns(engine, Stopped(s), schedule);
    AfterKeeps(engine, start, Stopped(s), schedule);
  }

  /** Once the worker is out of its loop nothing touches the database any more. */
  lemma ExitedForGood(engine: Engine, s: State, schedule: seq<Turn>)
    requires s.worker.Exited?
    ensures var t := After(engine, s, schedule); t.store == s.store && t.done == s.done && t.worker.Exited?
  {
    Turns(engine, s, schedule);
  }

  /** However two runs are scheduled, the tasks both have done saw and left the same, if they
      were submitted in the same order. */
  lemma SameOutcome(engine: Engine, start: Store, s: State, t: State)
    requires Inv(engine, start, s) && Inv(engine, start, t) && |s.done| == |t.done|
    requires s.submitted[..|s.done|] == t.submitted[..|s.done|]
    ensures s.done == t.done
    ensures !s.worker.Running? && !t.worker.Running? ==> s.store == t.store
  {
    assert s.submitted[..|s.done|] == Tasks(s.done) && t.submitted[..|t.done|] == Tasks(t.done);
    OneSerial(engine, start, s.done, t.done);
  }

  lemma {:induction false} TraceSplits(runs: seq<Run>, k: nat) returns (rest: seq<Event>)
    requires k < |runs|
    ensures Trace(runs) == Trace(runs[..k]) + runs[k].events + rest
  {
    var n := |runs| - 1;
    if k == n {
      rest := [];
    } else {
      var more := TraceSplits(runs[..n], k);
      assert runs[..n][..k] == runs[..k];
      rest := more + runs[n].events;
    }
  }

  lemma PrefixOf(runs: seq<Run>, k: nat)
    requires k < |runs|
    ensures runs[..|runs| - 1][..k] == runs[..k]
  {
  }

  lemma {:induction false} SerialPrefix(engine: Engine, start: Store, runs: seq<Run>, k: nat)
    requires Serial(engine, start, runs) && k <= |runs|
    ensures Serial(engine, start, runs[..k])
    decreases |runs|
  {
    if k == |runs| {
      assert runs[..k] == runs;
    } else {
      var front := runs[..|runs| - 1];
      SerialPrefix(engine, start, front, k);
      PrefixOf(runs, k);
    }
  }

  lemma EachComplete(engine: Engine, start: Store, runs: seq<Run>, k: nat)
    requires Serial(engine, start, runs) && k < |runs|
    ensures Complete(runs[k].task, Numbered(Tasks(runs[..k + 1])), runs[k].events)
  {
    SerialPrefix(engine, start, runs, k + 1);
  }

  /** In the trace of a whole run a transaction's begin, its block and its commit or rollback
      are next to each other, with nothing of any other task between them. */
  lemma TransactionTogether(engine: Engine, start: Store, s: State, k: nat)
    returns (before: seq<Event>, begin: Event, body: seq<Event>, end: Event, after: seq<Event>, rollback: bool)
    requires Inv(engine, start, s) && k < |s.done| && s.done[k].task.InTransaction?
    ensures Trace(s.done) + s.current == before + [begin] + body + [end] + after
    ensures before == Trace(s.done[..k])
    ensures begin.act == Begin(s.done[k].task.deferred) && end.act == if rollback then Rollback else Commit
    ensures BlockRan(s.submitted[k].block, body, rollback)
  {
    var run := s.done[k];
    EachComplete(engine, start, s.done, k);
    begin, body, end, rollback := TransactionParts(run.task, Numbered(Tasks(s.done[..k + 1])), run.events);
    var rest := TraceSplits(s.done, k);
    before, after := Trace(s.done[..k]), rest + s.current;
    Flatten(before, [begin], body, [end], rest, s.current);
    TaskIs(s.done, k);
  }

  lemma TransactionParts(task: Task, index: nat, events: seq<Event>)
    returns (begin: Event, body: seq<Event>, end: Event, rollback: bool)
    requires Complete(task, index, events) && task.InTransaction?
    ensures events == [begin] + (body + [end]) && BlockRan(task.block, body, rollback)
    ensures begin.act == Begin(task.deferred) && end.act == if rollback then Rollback else Commit
  {
    rollback := Whole(task, index, events, true);
    var opening, middle, ending := Parts(task, index, events, rollback);
    assert |opening| == |Acts(opening)| == 1 && |ending| == |Acts(ending)| == 1;
    begin, body, end := opening[0], middle, ending[0];
    assert opening == [begin] && ending == [end];
    assert Acts(opening)[0] == begin.act && Acts(ending)[0] == end.act;
  }

  lemma Flatten(a: seq<Event>, b: seq<Event>, c: seq<Event>, d: seq<Event>, e: seq<Event>, f: seq<Event>)
    ensures a + (b + (c + d)) + e + f == a + b + c + d + (e + f)
  {
  }

  lemma {:induction false} TaskIs(runs: seq<Run>, k: nat)
    requires k < |runs|
    ensures Tasks(runs)[k] == runs[k].task
  {
    if k < |runs| - 1 { TaskIs(runs[..|runs| - 1], k); }
  }

  // ---------------------------------------------------------------- progress

  /** Where a task is after the first m events of a whole run of it. */
  function StageAt(task: Task, index: nat, events: seq<Event>, rollback: bool, m: nat): Stage
    requires Whole(task, index, events, rollback) && m <= |events|
  {
    var (n, last) := (|Opening(task, index)|, |events| - |Ending(task, index, rollback)|);
    if m < n then Entry
    else if m < last then InBlock(Replies(events[n..m]), events[m].act)
    else if m == |events| then Over
    else Closing(rollback && m == last)
  }

  lemma ActIs(events: seq<Event>, acts: seq<Act>, k: nat)
    requires Acts(events) == acts && k < |acts|
    ensures k < |events| && events[k].act == acts[k]
  {
    assert |events| == |Acts(events)|;
  }

  /** The block, from event n to event last, chooses event m after those before it. */
  lemma BlockStage(block: Block, events: seq<Event>, n: nat, last: nat, rollback: bool, m: nat)
    requires n <= m <= last <= |events| && BlockRan(block, events[n..last], rollback)
    ensures block(Replies(events[n..m])) == if m < last then Call(events[m].act) else Return(rollback)
    ensures m < last ==> Replies(events[n..m + 1]) == Replies(events[n..m]) + [events[m].reply]
  {
    if m < last {
      assert Chosen(block, events[n..last], m - n);
      assert events[n..last][..m - n] == events[n..m];
      assert events[n..m + 1] == events[n..m] + [events[m]];
    }
  }

  /** The block's next stage is that of the run. */
  lemma EnterStage(task: Task, index: nat, events: seq<Event>, rollback: bool, m: nat)
    requires Whole(task, index, events, rollback)
    requires |Opening(task, index)| <= m <= |events| - |Ending(task, index, rollback)|
    ensures Enter(task, Replies(events[|Opening(task, index)|..m])) == StageAt(task, index, events, rollback, m)
  {
    var (n, last) := (|Opening(task, index)|, |events| - |Ending(task, index, rollback)|);
    BlockStage(task.block, events, n, last, rollback, m);
  }

  /** Each event of a whole run is what its stage asks for, and leads to the stage of the next. */
  lemma StageStep(task: Task, index: nat, events: seq<Event>, rollback: bool, m: nat)
    requires Whole(task, index, events, rollback) && m < |events|
    ensures var stage := StageAt(task, index, events, rollback, m);
            && stage != Over && events[m].act == ActAt(task, stage, index)
            && Later(task, stage, events[m].reply) == StageAt(task, index, events, rollback, m + 1)
  {
    var (n, last) := (|Opening(task, index)|, |events| - |Ending(task, index, rollback)|);
    if m < n {
      ActIs(events[..n], Opening(task, index), m);
      assert events[1..1] == [] && Replies([]) == [];
      EnterStage(task, index, events, rollback, n);
    } else if m < last {
      BlockStage(task.block, events, n, last, rollback, m);
      EnterStage(task, index, events, rollback, m + 1);
    } else {
      ActIs(events[last..], Ending(task, index, rollback), m - last);
    }
  }

  lemma StageFirst(task: Task, index: nat, events: seq<Event>, rollback: bool)
    requires Whole(task, index, events, rollback)
    ensures StageAt(task, index, events, rollback, 0) == First(task)
  {
    if task.InDatabase? {
      assert events[0..0] == [] && Replies([]) == [];
      EnterStage(task, index, events, rollback, 0);
    }
  }

  /** The worker has done the first events of a run and is at the stage after them. */
  ghost predicate Along(task: Task, index: nat, events: seq<Event>, stage: Stage, m: nat) {
    && m <= |events|
    && if Refused(task, index, events) then stage == if m == 0 then Entry else Over
       else exists rollback ::
              Whole(task, index, events, rollback) && stage == StageAt(task, index, events, rollback, m)
  }

  lemma AlongFirst(task: Task, index: nat, events: seq<Event>)
    requires Complete(task, index, events)
    ensures Along(task, index, events, First(task), 0)
  {
    if !Refused(task, index, events) {
      var rollback := Whole(task, index, events, true);
      StageFirst(task, index, events, rollback);
    }
  }

  lemma AlongNext(task: Task, index: nat, events: seq<Event>, stage: Stage, m: nat)
    requires Along(task, index, events, stage, m)
    ensures stage == Over <==> m == |events|
    ensures m < |events| ==>
              && events[m].act == ActAt(task, stage, index)
              && Along(task, index, events, Later(task, stage, events[m].reply), m + 1)
  {
    if Refused(task, index, events) {
      assert |events| == |Acts(events)| == 1;
      ActIs(events, Opening(task, index), 0);
    } else {
      var rollback :| Whole(task, index, events, rollback) && stage == StageAt(task, index, events, rollback, m);
      if m < |events| {
        StageStep(task, index, events, rollback, m);
        assert Whole(task, index, events, rollback);
      }
    }
  }

  predicate NoStop(schedule: seq<Turn>) {
    forall i :: 0 <= i < |schedule| ==> !schedule[i].Stop?
  }

  /** The worker's turns. */
  function Works(schedule: seq<Turn>): nat {
    if schedule == [] then 0 else (if schedule[0].Work? then 1 else 0) + Works(schedule[1..])
  }

  /** The turns these runs take: one for the flag, one for the list and one to take the task off,
      and one for each event. */
  function Steps(runs: seq<Run>): nat {
    if runs == [] then 0 else |runs[0].events| + 3 + Steps(runs[1..])
  }

  /** How many of those have gone into the task in hand. */
  function Spent(s: State): nat {
    match s.worker
    case Looping => 0
    case Looking => 1
    case Running(_, _) => 2 + |s.current|
    case Exited => 0
  }

  /** One list starts with the other. */
  ghost predicate Agree(a: seq<Task>, b: seq<Task>) {
    a <= b || b <= a
  }

  /** The running task has done the first events of this run of it. */
  ghost predicate Inside(s: State, run: Run) {
    match s.worker
    case Running(task, stage) =>
      task == run.task && s.current <= run.events && Along(task, Index(s), run.events, stage, |s.current|)
    case _ => true
  }

  /** runs are what the queue does first, and some of it is still to be done. */
  ghost predicate Planned(engine: Engine, start: Store, s: State, runs: seq<Run>) {
    && !s.stop && Serial(engine, start, runs)
    && |s.done| < |runs| && s.done <= runs
    && Agree(s.submitted, Tasks(runs))
  }

  ghost predicate OnTrack(engine: Engine, start: Store, s: State, runs: seq<Run>) {
    Inv(engine, start, s) && Planned(engine, start, s, runs) && Inside(s, runs[|s.done|])
  }

  /** The next run is one of the task at the front. */
  lemma NextTask(s: State, runs: seq<Run>)
    requires FirstInFirstOut(s) && s.tasks != [] && |s.done| < |runs| && Agree(s.submitted, Tasks(runs))
    ensures runs[|s.done|].task == s.tasks[0]
  {
    TaskIs(runs, |s.done|);
    assert s.submitted[|s.done|] == s.tasks[0];
  }

  /** It is complete, and answered by the database as it is. */
  lemma NextRun(engine: Engine, start: Store, done: seq<Run>, runs: seq<Run>, run: Run)
    requires Serial(engine, start, runs) && |done| < |runs| && done <= runs && run == runs[|done|]
    ensures Complete(run.task, Numbered(Tasks(done) + [run.task]), run.events)
    ensures Answered(engine, StoreAfter(engine, start, Trace(done)), run.events)
  {
    SerialPrefix(engine, start, runs, |done| + 1);
    DoneNext(done, runs, run);
    LastRun(engine, start, done, run);
  }

  lemma LastRun(engine: Engine, start: Store, done: seq<Run>, run: Run)
    requires Serial(engine, start, done + [run])
    ensures Complete(run.task, Numbered(Tasks(done) + [run.task]), run.events)
    ensures Answered(engine, StoreAfter(engine, start, Trace(done)), run.events)
  {
    assert (done + [run])[..|done|] == done;
  }

  /** The engine's answer to the next act is the one in the run. */
  lemma NextEvent(engine: Engine, s: Store, events: seq<Event>, m: nat)
    requires Answered(engine, s, events) && m < |events|
    ensures events[m].reply == engine(StoreAfter(engine, s, events[..m]), events[m].act).1
  {
    Halves(engine, s, events, m + 1);
    assert events[..m + 1][..m] == events[..m];
  }

  lemma TakenInside(s: State, run: Run)
    requires s.worker.Looking? && s.current == []
    requires s.tasks != [] ==>
               s.tasks[0] == run.task && Complete(run.task, Numbered(Tasks(s.done) + [run.task]), run.events)
    ensures Inside(Taken(s), run)
  {
    if s.tasks != [] { AlongFirst(run.task, Index(Taken(s)), run.events); }
  }

  /** The running task's next event, named by the tasks done. */
  lemma ActedIs(engine: Engine, s: State)
    requires UnderWay(s) && s.worker.Running? && !s.worker.stage.Over?
    ensures var act := ActAt(s.worker.task, s.worker.stage, Index(s));
            var e, t := Event(act, engine(s.store, act).1), Acted(engine, s);
            && t.current == s.current + [e] && t.done == s.done
            && t.worker == Running(s.worker.task, Later(s.worker.task, s.worker.stage, e.reply))
  {
    NumberedMore(Tasks(s.done), s.worker.task);
  }

  lemma PrefixNext(a: seq<Event>, b: seq<Event>, e: Event)
    requires a <= b && |a| < |b| && b[|a|] == e
    ensures a + [e] <= b && b[..|a|] == a
  {
  }

  lemma ActedInside(engine: Engine, before: Store, s: State, run: Run)
    requires UnderWay(s) && s.worker.Running? && !s.worker.stage.Over? && Inside(s, run)
    requires Answered(engine, before, run.events) && s.store == StoreAfter(engine, before, s.current)
    ensures Inside(Acted(engine, s), run)
  {
    var m := |s.current|;
    AlongNext(run.task, Index(s), run.events, s.worker.stage, m);
    var e := run.events[m];
    PrefixNext(s.current, run.events, e);
    NextEvent(engine, before, run.events, m);
    ActedIs(engine, s);
    assert Acted(engine, s).current == s.current + [e];
  }

  lemma OverIsRun(s: State, run: Run)
    requires s.worker.Running? && s.worker.stage.Over? && Inside(s, run)
    ensures Run(s.worker.task, s.current) == run
  {
    AlongNext(run.task, Index(s), run.events, s.worker.stage, |s.current|);
  }

  lemma DoneNext(done: seq<Run>, runs: seq<Run>, run: Run)
    requires done <= runs && |done| < |runs| && run == runs[|done|]
    ensures done + [run] <= runs && runs[..|done| + 1] == done + [run]
  {
  }

  lemma PoppedOnTrack(engine: Engine, start: Store, s: State, runs: seq<Run>)
    requires OnTrack(engine, start, s, runs) && s.worker.Running? && s.worker.stage.Over?
    ensures var t := Popped(s);
            && Spent(s) == |runs[|s.done|].events| + 2 && Spent(t) == 0
            && |t.done| == |s.done| + 1 && t.done <= runs
            && (|t.done| < |runs| ==> OnTrack(engine, start, t, runs))
  {
    OverIsRun(s, runs[|s.done|]);
    DoneNext(s.done, runs, runs[|s.done|]);
    PoppedKeeps(engine, start, s);
  }

  lemma WorkedOnTrack(engine: Engine, start: Store, s: State, runs: seq<Run>)
    requires OnTrack(engine, start, s, runs) && !(s.worker.Running? && s.worker.stage.Over?)
    ensures var t := Worked(engine, s);
            OnTrack(engine, start, t, runs) && t.done == s.done && (s.tasks != [] ==> Spent(t) == Spent(s) + 1)
  {
    var run := runs[|s.done|];
    WorkedKeeps(engine, start, s);
    NextRun(engine, start, s.done, runs, run);
    match s.worker
    case Looping =>
    case Looking =>
      if s.tasks != [] { NextTask(s, runs); }
      TakenInside(s, run);
    case Running(_, _) => ActedInside(engine, StoreAfter(engine, start, Trace(s.done)), s, run);
    case Exited =>
  }

  lemma StepsFirst(runs: seq<Run>, n: nat)
    requires n < |runs|
    ensures Steps(runs[n..]) == |runs[n].events| + 3 + Steps(runs[n + 1..])
  {
    assert runs[n..][1..] == runs[n + 1..];
  }

  lemma SpentBound(engine: Engine, start: Store, s: State, runs: seq<Run>)
    requires OnTrack(engine, start, s, runs)
    ensures Spent(s) < Steps(runs[|s.done|..])
  {
    StepsFirst(runs, |s.done|);
  }

  /** How many turns of the worker are missing. */
  function Missing(s: State, runs: seq<Run>): int {
    if |s.done| < |runs| then Steps(runs[|s.done|..]) - Spent(s) else 0
  }

  lemma Through(done: seq<Run>, runs: seq<Run>)
    requires done <= runs && |runs| <= |done|
    ensures runs <= done
  {
  }

  lemma MissingDone(s: State, t: State, runs: seq<Run>)
    requires |s.done| < |runs| && |t.done| == |s.done| + 1
    requires Spent(s) == |runs[|s.done|].events| + 2 && Spent(t) == 0
    ensures Missing(t, runs) == Missing(s, runs) - 1
  {
    StepsFirst(runs, |s.done|);
    if |t.done| == |runs| { assert runs[|t.done|..] == []; }
  }

  /** The worker is through with runs, or on its way. */
  ghost predicate Underway(engine: Engine, start: Store, s: State, runs: seq<Run>) {
    runs <= s.done || OnTrack(engine, start, s, runs)
  }

  lemma WorkUnderway(engine: Engine, start: Store, s: State, runs: seq<Run>)
    requires OnTrack(engine, start, s, runs)
    ensures var t := Worked(engine, s);
            Underway(engine, start, t, runs) && (s.tasks != [] ==> Missing(t, runs) == Missing(s, runs) - 1)
  {
    if s.worker.Running? && s.worker.stage.Over? {
      var t := Popped(s);
      PoppedOnTrack(engine, start, s, runs);
      MissingDone(s, t, runs);
      if |t.done| == |runs| { Through(t.done, runs); }
    } else {
      WorkedOnTrack(engine, start, s, runs);
    }
  }

  lemma PutUnderway(engine: Engine, start: Store, s: State, runs: seq<Run>, task: Task)
    requires OnTrack(engine, start, s, runs) && Agree(s.submitted + [task], Tasks(runs))
    ensures OnTrack(engine, start, Submit(s, task), runs) && Missing(Submit(s, task), runs) == Missing(s, runs)
  {
    SubmitKeeps(engine, start, s, task);
  }

  lemma TurnUnderway(engine: Engine, start: Store, s: State, runs: seq<Run>, turn: Turn)
    requires Underway(engine, start, s, runs) && !turn.Stop?
    requires turn.Put? ==> Agree(s.submitted + [turn.task], Tasks(runs))
    ensures Underway(engine, start, Do(engine, s, turn), runs)
  {
    OneTurn(engine, s, turn);
    if !(runs <= s.done) {
      if turn.Put? { PutUnderway(engine, start, s, runs, turn.task); } else { WorkUnderway(engine, start, s, runs); }
    }
  }

  lemma StillFirst(tasks: seq<Task>, submitted: seq<Task>, more: seq<Task>)
    requires tasks <= submitted
    ensures tasks <= submitted + more
  {
  }

  lemma Pending(s: State, runs: seq<Run>)
    requires FirstInFirstOut(s) && |s.done| < |runs| && Tasks(runs) <= s.submitted
    ensures s.tasks != []
  {
  }

  /** All of runs is submitted, and what is still missing of it takes at most left turns. */
  ghost predicate Due(engine: Engine, start: Store, s: State, runs: seq<Run>, left: int) {
    Underway(engine, start, s, runs) && Tasks(runs) <= s.submitted && Missing(s, runs) <= left
  }

  /** Each turn of the worker is one step nearer to the end. */
  lemma TurnNearer(engine: Engine, start: Store, s: State, runs: seq<Run>, left: int, turn: Turn)
    requires Due(engine, start, s, runs, left) && !(runs <= s.done) && !turn.Stop?
    ensures left > 0 && Due(engine, start, Do(engine, s, turn), runs, if turn.Work? then left - 1 else left)
  {
    SpentBound(engine, start, s, runs);
    if turn.Put? {
      StillFirst(Tasks(runs), s.submitted, [turn.task]);
      PutUnderway(engine, start, s, runs, turn.task);
    } else {
      Pending(s, runs);
      OneTurn(engine, s, turn);
      WorkUnderway(engine, start, s, runs);
    }
  }

  /** Whatever is put meanwhile, the worker is through with these tasks after so many turns. */
  lemma {:induction false} InTime(engine: Engine, start: Store, s: State, runs: seq<Run>, schedule: seq<Turn>)
    requires Due(engine, start, s, runs, Works(schedule)) && NoStop(schedule)
    ensures runs <= After(engine, s, schedule).done
    decreases |schedule|
  {
    if runs <= s.done {
      Turns(engine, s, schedule);
    } else {
      TurnNearer(engine, start, s, runs, Works(schedule), if schedule == [] then Work else schedule[0]);
      InTime(engine, start, Do(engine, s, schedule[0]), runs, schedule[1..]);
    }
  }

  lemma FrontOnTrack(engine: Engine, start: Store, s: State, run: Run)
    requires Inv(engine, start, s) && !s.stop && s.worker.Looping? && s.tasks != [] && s.tasks[0] == run.task
    requires Complete(run.task, Numbered(Tasks(s.done) + [run.task]), run.events)
    requires Answered(engine, s.store, run.events)
    ensures OnTrack(engine, start, s, s.done + [run]) && Tasks(s.done + [run]) <= s.submitted
  {
    DoneMore(engine, start, s.done, run);
    FrontFirst(Tasks(s.done), s.tasks);
  }

  lemma FrontFirst(done: seq<Task>, tasks: seq<Task>)
    requires tasks != []
    ensures done + [tasks[0]] <= done + tasks
  {
  }

  lemma FrontMissing(s: State, run: Run)
    requires s.worker.Looping?
    ensures Missing(s, s.done + [run]) == |run.events| + 3
  {
    var runs := s.done + [run];
    StepsFirst(runs, |s.done|);
    assert runs[|s.done| + 1..] == [];
  }

  /** A task is run once its turn has come: from a loop test with the task in front, n + 3 turns of
      the worker finish it, where n is how many events it takes, whatever else is put meanwhile. */
  lemma FrontIsRun(engine: Engine, start: Store, s: State, events: seq<Event>, schedule: seq<Turn>)
    requires Inv(engine, start, s) && !s.stop && s.worker.Looping? && s.tasks != []
    requires Complete(s.tasks[0], Numbered(Tasks(s.done) + [s.tasks[0]]), events) && Answered(engine, s.store, events)
    requires NoStop(schedule) && Works(schedule) >= |events| + 3
    ensures s.done + [Run(s.tasks[0], events)] <= After(engine, s, schedule).done
  {
    var run := Run(s.tasks[0], events);
    FrontOnTrack(engine, start, s, run);
    FrontMissing(s, run);
    InTime(engine, start, s, s.done + [run], schedule);
  }

  lemma PrefixOfSum(a: seq<Task>, b: seq<Task>, c: seq<Task>)
    requires a + b <= c
    ensures a <= c
  {
  }

  lemma PutsFirst(submitted: seq<Task>, schedule: seq<Turn>, tasks: seq<Task>)
    requires schedule != [] && submitted + Puts(schedule) <= tasks
    ensures var first := if schedule[0].Put? then [schedule[0].task] else [];
            submitted + first <= tasks && submitted + first + Puts(schedule[1..]) <= tasks
  {
    var first, rest := if schedule[0].Put? then [schedule[0].task] else [], Puts(schedule[1..]);
    Regroup(submitted, first, rest);
    PrefixOfSum(submitted + first, rest, tasks);
  }

  lemma {:induction false} OnTheWay(engine: Engine, start: Store, s: State, runs: seq<Run>, schedule: seq<Turn>)
    requires Underway(engine, start, s, runs) && NoStop(schedule) && s.submitted + Puts(schedule) <= Tasks(runs)
    ensures Underway(engine, start, After(engine, s, schedule), runs)
    decreases |schedule|
  {
    if schedule != [] {
      var turn := schedule[0];
      PutsFirst(s.submitted, schedule, Tasks(runs));
      OneTurn(engine, s, turn);
      TurnUnderway(engine, start, s, runs, turn);
      OnTheWay(engine, start, Do(engine, s, turn), runs, schedule[1..]);
    }
  }

  lemma {:induction false} StepsLeft(runs: seq<Run>, n: nat)
    requires n <= |runs|
    ensures Steps(runs[n..]) <= Steps(runs)
  {
    if n == 0 {
      assert runs[0..] == runs;
    } else {
      StepsLeft(runs, n - 1);
      StepsFirst(runs, n - 1);
      assert runs[n - 1 + 1..] == runs[n..];
    }
  }

  lemma MissingBound(s: State, runs: seq<Run>)
    ensures Missing(s, runs) <= Steps(runs)
  {
    if |s.done| < |runs| { StepsLeft(runs, |s.done|); }
  }

  lemma StartUnderway(engine: Engine, start: Store, runs: seq<Run>)
    requires Serial(engine, start, runs)
    ensures Underway(engine, start, Started(start), runs)
  {
    StartedKeeps(engine, start);
  }

  /** Nothing submitted is left undone: if the tasks put so far, one after the other, have runs to
      their end, then so many turns of the worker later they are done, with exactly these runs. */
  lemma AllAreRun(engine: Engine, start: Store, before: seq<Turn>, runs: seq<Run>, schedule: seq<Turn>)
    requires Serial(engine, start, runs) && Tasks(runs) == Puts(before)
    requires NoStop(before) && NoStop(schedule) && Works(schedule) >= Steps(runs)
    ensures runs <= After(engine, After(engine, Started(start), before), schedule).done
  {
    StartUnderway(engine, start, runs);
    OnTheWay(engine, start, Started(start), runs, before);
    Turns(engine, Started(start), before);
    var s := After(engine, Started(start), before);
    MissingBound(s, runs);
    InTime(engine, start, s, runs, schedule);
  }

  /** run is the one task that is still run once stop is set, if there is one. */
  ghost predicate InHand(engine: Engine, start: Store, s: State, run: Run) {
    && (s.worker.Running? ==> Inside(s, run))
    && (s.worker.Looking? ==>
          s.tasks != [] && s.tasks[0] == run.task &&
          Complete(run.task, Numbered(Tasks(s.done) + [run.task]), run.events))
    && (s.worker.Running? || s.worker.Looking? ==>
          Answered(engine, StoreAfter(engine, start, Trace(s.done)), run.events))
  }

  /** The turns until the worker leaves its loop. */
  function ToExit(s: State, run: Run): int {
    match s.worker
    case Exited => 0
    case Looping => 1
    case Looking => |run.events| + 3
    case Running(_, _) => |run.events| - |s.current| + 2
  }

  lemma ExitNearer(engine: Engine, start: Store, s: State, run: Run)
    requires Inv(engine, start, s) && s.stop && InHand(engine, start, s, run) && !s.worker.Exited?
    ensures var t := Worked(engine, s);
            InHand(engine, start, t, run) && ToExit(t, run) < ToExit(s, run)
  {
    match s.worker
    case Looping =>
    case Looking => TakenInside(s, run);
    case Running(_, stage) =>
      if stage == Over {
        OverIsRun(s, run);
      } else {
        ActedInside(engine, StoreAfter(engine, start, Trace(s.done)), s, run);
      }
  }

  lemma PutInHand(engine: Engine, start: Store, s: State, run: Run, task: Task)
    requires InHand(engine, start, s, run)
    ensures InHand(engine, start, Submit(s, task), run)
  {
  }

  /** Stop is set, and the worker leaves its loop within left turns. */
  ghost predicate Ends(engine: Engine, start: Store, s: State, run: Run, left: int) {
    Inv(engine, start, s) && s.stop && InHand(engine, start, s, run) && ToExit(s, run) <= left
  }

  lemma ToExitPositive(s: State, run: Run)
    requires !s.worker.Exited? && (s.worker.Running? ==> s.current <= run.events)
    ensures ToExit(s, run) > 0
  {
  }

  lemma EndsTurn(engine: Engine, start: Store, s: State, run: Run, left: int, turn: Turn)
    requires Ends(engine, start, s, run, left) && !s.worker.Exited?
    ensures left > 0 && Ends(engine, start, Do(engine, s, turn), run, if turn.Work? then left - 1 else left)
  {
    ToExitPositive(s, run);
    if turn.Put? {
      SubmitKeeps(engine, start, s, turn.task);
      PutInHand(engine, start, s, run, turn.task);
    } else if turn.Work? {
      WorkedKeeps(engine, start, s);
      OneTurn(engine, s, turn);
      ExitNearer(engine, start, s, run);
    } else {
      assert Stopped(s) == s;
    }
  }

  /** Once stop is set the worker leaves its loop when the task in hand is done, and close can join it. */
  lemma {:induction false} StopEnds(engine: Engine, start: Store, s: State, run: Run, schedule: seq<Turn>)
    requires Ends(engine, start, s, run, Works(schedule))
    ensures After(engine, s, schedule).worker.Exited?
    decreases |schedule|
  {
    if s.worker.Exited? {
      Turns(engine, s, schedule);
    } else {
      EndsTurn(engine, start, s, run, Works(schedule), if schedule == [] then Work else schedule[0]);
      StopEnds(engine, start, Do(engine, s, schedule[0]), run, schedule[1..]);
    }
  }

  // ---------------------------------------------------------------- the object

  class FMDatabaseQueue {
    const engine: Engine
    ghost const start: Store

    var store: Store
    var tasks: seq<Task>
    var stop: bool
    var worker: Worker
    var savePointIndex: nat
    var number: nat

    ghost var submitted: seq<Task>
    ghost var done: seq<Run>
    ghost var current: seq<Event>
    ghost var limit: nat

    constructor (engine: Engine, store: Store)
      ensures this.engine == engine && start == store && Now() == Started(store) && Valid()
    {
      this.engine, start, this.store := engine, store, store;
      tasks, stop, worker, savePointIndex, number := [], false, Looping, 0, 0;
      submitted, done, current, limit := [], [], [], 0;
    }

    ghost function Now(): State
      reads this
    {
      State(store, tasks, stop, worker, savePointIndex, number, submitted, done, current, limit)
    }

    ghost predicate Valid()
      reads this
    {
      Inv(engine, start, Now())
    }

    method Put(task: Task)
      modifies this`tasks, this`submitted
      ensures Now() == Submit(old(Now()), task)
    {
      submitted := submitted + [task];
      tasks := tasks + [task];
    }

    method Close()
      modifies this`stop, this`limit
      ensures Now() == Stopped(old(Now()))
    {
      if !stop { limit := Begun(Now()); }
      stop := true;
    }

    /** Past the test of the stop flag: takes up the task at the front, if there is one. */
    method Look()
      requires worker.Looking?
      modifies this`worker
      ensures Now() == Taken(old(Now()))
    {
      worker := if tasks == [] then Looping else Running(tasks[0], First(tasks[0]));
    }

    /** Runs the next statement of the task. */
    method RunOn()
      requires worker.Running? && !worker.stage.Over?
      modifies this`store, this`worker, this`savePointIndex, this`number, this`current
      ensures Now() == Acted(engine, old(Now()))
    {
      var task, stage := worker.task, worker.stage;
      if stage.Entry? && task.InSavePoint? {
        savePointIndex := (savePointIndex + 1) % LIMIT;
        number := savePointIndex;
      }
      var act := ActAt(task, stage, number);
      var (next, reply) := engine(store, act);
      store := next;
      current := current + [Event(act, reply)];
      worker := Running(task, Later(task, stage, reply));
    }

    /** The task has returned. */
    method PopFront()
      requires worker.Running? && tasks != []
      modifies this`tasks, this`worker, this`done, this`current
      ensures Now() == Popped(old(Now()))
    {
      done, current := done + [Run(worker.task, current)], [];
      tasks := tasks[1..];
      worker := Looping;
    }

    /** One step of the worker. */
    method Work()
      requires Valid()
      modifies this
      ensures Now() == Worked(engine, old(Now()))
    {
      match worker
      case Looping => worker := if stop then Exited else Looking;
      case Looking => Look();
      case Running(_, stage) => if stage.Over? { PopFront(); } else { RunOn(); }
      case Exited =>
    }

    /** Producers, close and the worker take turns as the schedule says. */
    method Take(schedule: seq<Turn>)
      requires Valid()
      modifies this
      ensures Valid() && Now() == After(engine, old(Now()), schedule)
    {
      for i := 0 to |schedule|
        invariant Valid()
        invariant After(engine, Now(), schedule[i..]) == After(engine, old(Now()), schedule)
      {
        DoKeeps(engine, start, Now(), schedule[i]);
        match schedule[i] {
          case Put(task) => Put(task);
          case Stop => Close();
          case Work => Work();
        }
        assert schedule[i..][1..] == schedule[i + 1..];
      }
    }
  }
}
