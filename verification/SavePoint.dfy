/** FMDatabase::inSavePoint, nested to any depth, over a database whose every statement may fail. */
module SavePoint {

  /** The database file, abstractly: table by table, rows as text. */
  type Content = map<string, seq<string>>

  datatype Mark = Mark(name: string, saved: Content)

  /** index is the static counter of inSavePoint, a 64-bit unsigned integer; clock numbers the
      statements run. */
  datatype State = State(content: Content, stack: seq<Mark>, index: nat, clock: nat)

  /** Which statements succeed. */
  type Environment = nat -> bool

  const LIMIT: nat := 0x1_0000_0000_0000_0000

  // ---------------------------------------------------------------- savepoint statements

  function Lower(c: char): char {
    if 'A' <= c <= 'Z' then (c as int + 32) as char else c
  }

  /** Savepoint names are compared without regard to case. */
  predicate SameName(a: string, b: string) {
    |a| == |b| && forall i :: 0 <= i < |a| ==> Lower(a[i]) == Lower(b[i])
  }

  /** The most recent savepoint called name; the length of the stack if there is none. */
  function Find(stack: seq<Mark>, name: string): (k: nat)
    ensures k <= |stack|
    ensures k < |stack| ==> SameName(stack[k].name, name)
    ensures forall i :: k < i < |stack| ==> !SameName(stack[i].name, name)
    ensures k == |stack| ==> forall i :: 0 <= i < |stack| ==> !SameName(stack[i].name, name)
  {
    if stack == [] then 0
    else
      var last := |stack| - 1;
      if SameName(stack[last].name, name) then last
      else
        var k := Find(stack[..last], name);
        if k == last then |stack| else k
  }

  /** Each statement takes effect only if the environment lets it, and if the savepoint exists. */
  function Start(env: Environment, s: State, name: string): (State, bool) {
    var t := s.(clock := s.clock + 1);
    if env(s.clock) then (t.(stack := s.stack + [Mark(name, s.content)]), true) else (t, false)
  }

  function Release(env: Environment, s: State, name: string): (State, bool) {
    var t, k := s.(clock := s.clock + 1), Find(s.stack, name);
    if env(s.clock) && k < |s.stack| then (t.(stack := s.stack[..k]), true) else (t, false)
  }

  function RollbackTo(env: Environment, s: State, name: string): (State, bool) {
    var t, k := s.(clock := s.clock + 1), Find(s.stack, name);
    if env(s.clock) && k < |s.stack| then (t.(stack := s.stack[..k + 1], content := s.stack[k].saved), true)
    else (t, false)
  }

  // ---------------------------------------------------------------- blocks

  /** What a block may do before it returns: run updates, look at the content, nest inSavePoint, and
      go on as the answers suggest. */
  datatype Block =
    | Return(rollback: bool)
    | Update(effect: Content -> Content, ok: Block, failed: Block)
    | Test(test: Content -> bool, yes: Block, no: Block)
    | Nest(body: Block, ok: Block, failed: Block)

  function Decimal(n: nat): string {
    if n < 10 then ['0' + n as char] else Decimal(n / 10) + ['0' + (n % 10) as char]
  }

  function Name(index: nat): string {
    "dbSavePoint" + Decimal(index)
  }

  function NextIndex(index: nat): nat {
    (index + 1) % LIMIT
  }

  /** Runs a block; the second result is the rollback flag it leaves. */
  function RunBlock(env: Environment, s: State, b: Block): (State, bool)
    decreases b, 0
  {
    match b
    case Return(rollback) => (s, rollback)
    case Update(effect, ok, failed) =>
      var t := s.(clock := s.clock + 1);
      if env(s.clock) then RunBlock(env, t.(content := effect(s.content)), ok) else RunBlock(env, t, failed)
    case Test(test, yes, no) => RunBlock(env, s, if test(s.content) then yes else no)
    case Nest(body, ok, failed) =>
      var (t, done) := InSavePoint(env, s, body);
      RunBlock(env, t, if done then ok else failed)
  }

  function InSavePoint(env: Environment, s: State, b: Block): (State, bool)
    decreases b, 1
  {
    var s0 := s.(index := NextIndex(s.index));
    var name := Name(s0.index);
    var (s1, started) := Start(env, s0, name);
    if !started then (s1, false)
    else
      var (s2, rollback) := RunBlock(env, s1, b);
      var (s3, undone) := if rollback then RollbackTo(env, s2, name) else (s2, true);
      if !undone then (s3, false) else Release(env, s3, name)
  }

  class Database {
    var content: Content
    var stack: seq<Mark>
    var savePointIdx: nat
    var clock: nat

    function Now(): State
      reads this
    {
      State(content, stack, savePointIdx, clock)
    }

    method StartSavePointWithName(env: Environment, name: string) returns (ok: bool)
      modifies this
      ensures (Now(), ok) == Start(env, old(Now()), name)
    {
      ok := env(clock);
      clock := clock + 1;
      if ok {
        stack := stack + [Mark(name, content)];
      }
    }

    method FindSavePoint(name: string) returns (k: nat)
      ensures k == Find(stack, name)
    {
      k := |stack|;
      while k > 0
        invariant k <= |stack|
        invariant forall i :: k <= i < |stack| ==> !SameName(stack[i].name, name)
      {
        k := k - 1;
        if SameName(stack[k].name, name) { return; }
      }
      k := |stack|;
    }

    method ReleaseSavePointWithName(env: Environment, name: string) returns (ok: bool)
      modifies this
      ensures (Now(), ok) == Release(env, old(Now()), name)
    {
      var k := FindSavePoint(name);
      ok := env(clock) && k < |stack|;
      clock := clock + 1;
      if ok {
        stack := stack[..k];
      }
    }

    method RollbackToSavePointWithName(env: Environment, name: string) returns (ok: bool)
      modifies this
      ensures (Now(), ok) == RollbackTo(env, old(Now()), name)
    {
      var k := FindSavePoint(name);
      ok := env(clock) && k < |stack|;
      clock := clock + 1;
      if ok {
        content := stack[k].saved;
        stack := stack[..k + 1];
      }
    }

    /** The block, as code that the database calls back. */
    method Execute(env: Environment, b: Block) returns (shouldRollback: bool)
      modifies this
      ensures (Now(), shouldRollback) == RunBlock(env, old(Now()), b)
      decreases b, 0
    {
      match b {
        case Return(rollback) =>
          shouldRollback := rollback;
        case Update(effect, onOk, onFailed) =>
          var ok := env(clock);
          clock := clock + 1;
          if ok {
            content := effect(content);
            shouldRollback := Execute(env, onOk);
          } else {
            shouldRollback := Execute(env, onFailed);
          }
        case Test(test, yes, no) =>
          if test(content) {
            shouldRollback := Execute(env, yes);
          } else {
            shouldRollback := Execute(env, no);
          }
        case Nest(body, onOk, onFailed) =>
          var ok := InSavePointBlock(env, body);
          if ok {
            shouldRollback := Execute(env, onOk);
          } else {
            shouldRollback := Execute(env, onFailed);
          }
      }
    }

    method InSavePointBlock(env: Environment, b: Block) returns (ok: bool)
      modifies this
      ensures (Now(), ok) == InSavePoint(env, old(Now()), b)
      decreases b, 1
    {
      savePointIdx := NextIndex(savePointIdx);
      var name := Name(savePointIdx);
      var started := StartSavePointWithName(env, name);
      if !started {
        return false;
      }
      var shouldRollback := Execute(env, b);
      if shouldRollback {
        var undone := RollbackToSavePointWithName(env, name);
        if !undone {
          return false;
        }
      }
      ok := ReleaseSavePointWithName(env, name);
    }
  }

  // ---------------------------------------------------------------- names are fresh

  lemma {:induction false} DecimalDigits(n: nat)
    ensures Decimal(n) != "" && forall i :: 0 <= i < |Decimal(n)| ==> '0' <= Decimal(n)[i] <= '9'
  {
    if n >= 10 { DecimalDigits(n / 10); }
  }

  lemma {:induction false} DecimalInjective(m: nat, n: nat)
    requires Decimal(m) == Decimal(n)
    ensures m == n
    decreases m
  {
    var x, y := Decimal(m), Decimal(n);
    DecimalDigits(m / 10);
    DecimalDigits(n / 10);
    assert x[|x| - 1] == '0' + (m % 10) as char && y[|y| - 1] == '0' + (n % 10) as char;
    if m >= 10 && n >= 10 {
      assert x[..|x| - 1] == Decimal(m / 10) && y[..|y| - 1] == Decimal(n / 10);
      DecimalInjective(m / 10, n / 10);
    }
  }

  lemma NamesDiffer(m: nat, n: nat)
    requires SameName(Name(m), Name(n))
    ensures m == n
  {
    var x, y := Decimal(m), Decimal(n);
    DecimalDigits(m);
    DecimalDigits(n);
    forall i | 0 <= i < |x| ensures x[i] == y[i] {
      assert Name(m)[11 + i] == x[i] && Name(n)[11 + i] == y[i];
    }
    assert x == y;
    DecimalInjective(m, n);
  }

  lemma SameNameSelf(a: string)
    ensures SameName(a, a)
  {
  }

  // ---------------------------------------------------------------- atomicity

  /** How many times a block can call inSavePoint. */
  function Calls(b: Block): nat {
    match b
    case Return(_) => 0
    case Update(_, ok, failed) => Calls(ok) + Calls(failed)
    case Test(_, yes, no) => Calls(yes) + Calls(no)
    case Nest(body, ok, failed) => 1 + Calls(body) + Calls(ok) + Calls(failed)
  }

  ghost predicate NamedBetween(name: string, lo: nat, hi: nat) {
    exists n :: lo < n <= hi && name == Name(n)
  }

  /** t.stack is s.stack with savepoints on top that inSavePoint named since s. */
  ghost predicate Grown(s: State, t: State) {
    && s.index <= t.index && |s.stack| <= |t.stack| && t.stack[..|s.stack|] == s.stack
    && forall i :: |s.stack| <= i < |t.stack| ==> NamedBetween(t.stack[i].name, s.index, t.index)
  }

  lemma GrownTwice(s: State, t: State, u: State)
    requires Grown(s, t) && Grown(t, u)
    ensures Grown(s, u)
  {
    assert u.stack[..|s.stack|] == u.stack[..|t.stack|][..|s.stack|];
    forall i | |s.stack| <= i < |u.stack| ensures NamedBetween(u.stack[i].name, s.index, u.index) {
      if i < |t.stack| {
        assert u.stack[i] == u.stack[..|t.stack|][i];
      }
    }
  }

  /** A savepoint is found again below whatever a block has left on top of it. */
  lemma FoundAgain(s: State, t: State, k: nat, n: nat)
    requires Grown(s, t) && k + 1 == |s.stack| && s.stack[k].name == Name(n) && n == s.index
    ensures Find(t.stack, Name(n)) == k && t.stack[k] == s.stack[k]
    ensures t.stack[..k] == s.stack[..k]
  {
    assert t.stack[k] == t.stack[..|s.stack|][k];
    assert t.stack[..k] == t.stack[..|s.stack|][..k];
    SameNameSelf(Name(n));
    forall i | k < i < |t.stack| ensures !SameName(t.stack[i].name, Name(n)) {
      assert NamedBetween(t.stack[i].name, s.index, t.index);
      var j :| s.index < j <= t.index && t.stack[i].name == Name(j);
      if SameName(Name(j), Name(n)) { NamesDiffer(j, n); }
    }
  }

  lemma {:induction false} BlockGrows(env: Environment, s: State, b: Block)
    requires s.index + Calls(b) < LIMIT
    ensures Grown(s, RunBlock(env, s, b).0) && RunBlock(env, s, b).0.index <= s.index + Calls(b)
    decreases b, 0
  {
    match b {
      case Return(_) =>
        assert Grown(s, s);
      case Update(effect, ok, failed) =>
        var t := s.(clock := s.clock + 1);
        var u := t.(content := effect(s.content));
        if env(s.clock) {
          BlockGrows(env, u, ok);
          assert Grown(s, RunBlock(env, u, ok).0);
        } else {
          BlockGrows(env, t, failed);
          assert Grown(s, RunBlock(env, t, failed).0);
        }
      case Test(test, yes, no) =>
        BlockGrows(env, s, if test(s.content) then yes else no);
      case Nest(body, ok, failed) =>
        Atomic(env, s, body);
        var (t, done) := InSavePoint(env, s, body);
        var rest := if done then ok else failed;
        BlockGrows(env, t, rest);
        GrownTwice(s, t, RunBlock(env, t, rest).0);
    }
  }

  /** The block as inSavePoint runs it: with the new savepoint in place. */
  function Opened(s: State): State {
    var n := NextIndex(s.index);
    State(s.content, s.stack + [Mark(Name(n), s.content)], n, s.clock + 1)
  }

  /** What inSavePoint does after its block has run. */
  function Closing(env: Environment, after: State, rollback: bool, name: string): (State, bool) {
    var (s3, undone) := if rollback then RollbackTo(env, after, name) else (after, true);
    if !undone then (s3, false) else Release(env, s3, name)
  }

  lemma InSavePointParts(env: Environment, s: State, b: Block)
    ensures var n := NextIndex(s.index);
            var (after, rollback) := RunBlock(env, Opened(s), b);
            InSavePoint(env, s, b) == if env(s.clock) then Closing(env, after, rollback, Name(n))
                                      else (s.(index := n, clock := s.clock + 1), false)
  {
  }

  lemma GrownFromOpened(s: State, after: State)
    requires s.index + 1 < LIMIT && Grown(Opened(s), after)
    ensures Grown(s, after)
    ensures after.stack[|s.stack|] == Mark(Name(s.index + 1), s.content)
  {
    var begun, k := Opened(s), |s.stack|;
    assert after.stack[..k] == after.stack[..k + 1][..k];
    assert after.stack[k] == after.stack[..k + 1][k];
    forall i | k <= i < |after.stack| ensures NamedBetween(after.stack[i].name, s.index, after.index) {
    }
  }

  lemma ClosingRestores(env: Environment, s: State, after: State, rollback: bool)
    requires s.index + 1 < LIMIT && Grown(Opened(s), after)
    ensures var (t, ok) := Closing(env, after, rollback, Name(s.index + 1));
            && Grown(s, t) && t.index == after.index
            && (ok ==> t.stack == s.stack && t.content == if rollback then s.content else after.content)
            && (!ok ==> |t.stack| > |s.stack| && t.stack[|s.stack|] == Mark(Name(s.index + 1), s.content))
  {
    var begun, n, k := Opened(s), s.index + 1, |s.stack|;
    FoundAgain(begun, after, k, n);
    GrownFromOpened(s, after);
    if rollback {
      var (undone, ok) := RollbackTo(env, after, Name(n));
      if ok {
        assert undone.stack == begun.stack;
        FoundAgain(begun, undone, k, n);
        GrownFromOpened(s, undone);
      }
    }
  }

  /** What inSavePoint comes to, given what its block did if it was run. */
  lemma Outcome(env: Environment, s: State, after: State, rollback: bool, t: State, ok: bool)
    requires s.index + 1 < LIMIT && Grown(Opened(s), after)
    requires (t, ok) == if env(s.clock) then Closing(env, after, rollback, Name(s.index + 1))
                        else (s.(index := s.index + 1, clock := s.clock + 1), false)
    ensures Grown(s, t) && t.index == if env(s.clock) then after.index else s.index + 1
    ensures ok ==> t.stack == s.stack && t.content == if rollback then s.content else after.content
    ensures !ok && env(s.clock) ==>
              |t.stack| > |s.stack| && t.stack[|s.stack|] == Mark(Name(s.index + 1), s.content)
    ensures !ok && !env(s.clock) ==> t.content == s.content && t.stack == s.stack
  {
    ClosingRestores(env, s, after, rollback);
  }

  /** inSavePoint is atomic, even when statements inside the block fail and leave savepoints of
      their own behind.  A true result means the savepoints are those at entry, and the content is
      that at entry if the block asked for rollback, and otherwise what the block left.  A false
      result means either that nothing was begun, or that the savepoint, holding the content at
      entry, is still there. */
  lemma {:induction false} Atomic(env: Environment, s: State, b: Block)
    requires s.index + 1 + Calls(b) < LIMIT
    ensures var (t, ok) := InSavePoint(env, s, b);
            var (after, rollback) := RunBlock(env, Opened(s), b);
            && Grown(s, t) && t.index <= s.index + 1 + Calls(b)
            && (ok ==> t.stack == s.stack && t.content == if rollback then s.content else after.content)
            && (!ok && env(s.clock) ==>
                  |t.stack| > |s.stack| && t.stack[|s.stack|] == Mark(Name(s.index + 1), s.content))
            && (!ok && !env(s.clock) ==> t.content == s.content && t.stack == s.stack)
    decreases b, 1
  {
    InSavePointParts(env, s, b);
    BlockGrows(env, Opened(s), b);
    var (t, ok) := InSavePoint(env, s, b);
    var (after, rollback) := RunBlock(env, Opened(s), b);
    Outcome(env, s, after, rollback, t, ok);
  }

  // ---------------------------------------------------------------- success

  /** The savepoint is found below what its block left, and again once that is undone. */
  lemma ClosingSucceeds(env: Environment, s: State, after: State, rollback: bool)
    requires s.index + 1 < LIMIT && Grown(Opened(s), after)
    ensures var (t, ok) := Closing(env, after, rollback, Name(s.index + 1));
            if rollback && env(after.clock)
            then ok == env(after.clock + 1) && t.content == s.content && t.clock == after.clock + 2
            else ok == (env(after.clock) && !rollback) && t.content == after.content && t.clock == after.clock + 1
  {
    var k, n := |s.stack|, s.index + 1;
    FoundAgain(Opened(s), after, k, n);
    if rollback && env(after.clock) {
      var undone := RollbackTo(env, after, Name(n)).0;
      assert undone.stack == after.stack[..k + 1];
      FoundAgain(Opened(s), undone, k, n);
    }
  }

  lemma OutcomeSucceeds(env: Environment, s: State, after: State, rollback: bool, t: State, ok: bool)
    requires s.index + 1 < LIMIT && Grown(Opened(s), after)
    requires (t, ok) == if env(s.clock) then Closing(env, after, rollback, Name(s.index + 1))
                        else (s.(index := s.index + 1, clock := s.clock + 1), false)
    ensures ok <==> env(s.clock) && env(after.clock) && (rollback ==> env(after.clock + 1))
    ensures Effect(t.content, t.clock, ok) ==
            if env(s.clock) then Settled(env, s.content, Effect(after.content, after.clock, rollback))
            else Effect(s.content, s.clock + 1, false)
  {
    ClosingSucceeds(env, s, after, rollback);
  }

  /** inSavePoint answers true exactly when its own statements are let through: the one that begins
      the savepoint, the one that goes back to it if the block asked for that, and the one that
      releases it. */
  lemma Succeeds(env: Environment, s: State, b: Block)
    requires s.index + 1 + Calls(b) < LIMIT
    ensures var (after, rollback) := RunBlock(env, Opened(s), b);
            InSavePoint(env, s, b).1 <==>
            env(s.clock) && env(after.clock) && (rollback ==> env(after.clock + 1))
  {
    InSavePointParts(env, s, b);
    BlockGrows(env, Opened(s), b);
    var (t, ok) := InSavePoint(env, s, b);
    var (after, rollback) := RunBlock(env, Opened(s), b);
    OutcomeSucceeds(env, s, after, rollback, t, ok);
  }

  /** What a block comes to: contents, statements run so far, and its answer. */
  datatype Effect = Effect(content: Content, clock: nat, answer: bool)

  /** What a block is meant to do, told without savepoints and their names: a nested block keeps the
      contents it started from, and puts them back if it is asked to. */
  function Meant(env: Environment, content: Content, clock: nat, b: Block): Effect
    decreases b, 0
  {
    match b
    case Return(rollback) => Effect(content, clock, rollback)
    case Update(effect, ok, failed) =>
      if env(clock) then Meant(env, effect(content), clock + 1, ok) else Meant(env, content, clock + 1, failed)
    case Test(test, yes, no) => Meant(env, content, clock, if test(content) then yes else no)
    case Nest(body, ok, failed) =>
      var e := MeantInside(env, content, clock, body);
      Meant(env, e.content, e.clock, if e.answer then ok else failed)
  }

  function MeantInside(env: Environment, content: Content, clock: nat, b: Block): Effect
    decreases b, 1
  {
    if env(clock) then Settled(env, content, Meant(env, content, clock + 1, b))
    else Effect(content, clock + 1, false)
  }

  /** The block has come to e; content is what there was before it. */
  function Settled(env: Environment, content: Content, e: Effect): Effect {
    if !e.answer then e.(clock := e.clock + 1, answer := env(e.clock))
    else if !env(e.clock) then e.(clock := e.clock + 1, answer := false)
    else Effect(content, e.clock + 2, env(e.clock + 1))
  }

  /** Whatever fails, and however deep the nesting, savepoints give a block the effect it is meant to have. */
  lemma {:induction false} BlockAsMeant(env: Environment, s: State, b: Block)
    requires s.index + Calls(b) < LIMIT
    ensures var (t, rollback) := RunBlock(env, s, b);
            Effect(t.content, t.clock, rollback) == Meant(env, s.content, s.clock, b)
    decreases b, 0
  {
    match b {
      case Return(_) =>
      case Update(effect, ok, failed) =>
        var t := s.(clock := s.clock + 1);
        if env(s.clock) {
          BlockAsMeant(env, t.(content := effect(s.content)), ok);
        } else {
          BlockAsMeant(env, t, failed);
        }
      case Test(test, yes, no) =>
        BlockAsMeant(env, s, if test(s.content) then yes else no);
      case Nest(body, ok, failed) =>
        Atomic(env, s, body);
        AsMeant(env, s, body);
        var (t, done) := InSavePoint(env, s, body);
        BlockAsMeant(env, t, if done then ok else failed);
    }
  }

  lemma {:induction false} AsMeant(env: Environment, s: State, b: Block)
    requires s.index + 1 + Calls(b) < LIMIT
    ensures var (t, ok) := InSavePoint(env, s, b);
            Effect(t.content, t.clock, ok) == MeantInside(env, s.content, s.clock, b)
    decreases b, 1
  {
    InSavePointParts(env, s, b);
    BlockGrows(env, Opened(s), b);
    BlockAsMeant(env, Opened(s), b);
    var (t, ok) := InSavePoint(env, s, b);
    var (after, rollback) := RunBlock(env, Opened(s), b);
    OutcomeSucceeds(env, s, after, rollback, t, ok);
  }

  /** The contents a block makes of the given ones if nothing fails, and whether it asks for rollback. */
  function Applied(content: Content, b: Block): (Content, bool)
    decreases b
  {
    match b
    case Return(rollback) => (content, rollback)
    case Update(effect, ok, _) => Applied(effect(content), ok)
    case Test(test, yes, no) => Applied(content, if test(content) then yes else no)
    case Nest(body, ok, _) =>
      var (inner, undo) := Applied(content, body);
      Applied(if undo then content else inner, ok)
  }

  lemma {:induction false} MeantApplied(env: Environment, content: Content, clock: nat, b: Block)
    requires forall n :: env(n)
    ensures var e := Meant(env, content, clock, b); (e.content, e.answer) == Applied(content, b)
    decreases b, 0
  {
    match b {
      case Return(_) =>
      case Update(effect, ok, _) => MeantApplied(env, effect(content), clock + 1, ok);
      case Test(test, yes, no) => MeantApplied(env, content, clock, if test(content) then yes else no);
      case Nest(body, ok, _) =>
        InsideApplied(env, content, clock, body);
        var e := MeantInside(env, content, clock, body);
        MeantApplied(env, e.content, e.clock, ok);
    }
  }

  lemma {:induction false} InsideApplied(env: Environment, content: Content, clock: nat, b: Block)
    requires forall n :: env(n)
    ensures var e := MeantInside(env, content, clock, b);
            var (inner, undo) := Applied(content, b);
            e.answer && e.content == if undo then content else inner
    decreases b, 1
  {
    MeantApplied(env, content, clock + 1, b);
  }

  lemma StackBack(env: Environment, s: State, b: Block)
    requires s.index + 1 + Calls(b) < LIMIT && InSavePoint(env, s, b).1
    ensures InSavePoint(env, s, b).0.stack == s.stack
  {
    Atomic(env, s, b);
  }

  /** If every statement succeeds inSavePoint is true: the savepoints are those at entry, and a block
      has happened as a whole, or not at all if it asked for rollback. */
  lemma NothingFails(env: Environment, s: State, b: Block)
    requires s.index + 1 + Calls(b) < LIMIT && forall n :: env(n)
    ensures var (t, ok) := InSavePoint(env, s, b);
            var (inner, undo) := Applied(s.content, b);
            ok && t.stack == s.stack && t.content == if undo then s.content else inner
  {
    AsMeant(env, s, b);
    InsideApplied(env, s.content, s.clock, b);
    StackBack(env, s, b);
  }
}
