/** How far each opcode of an EXPLAIN listing is indented. */
module Explain {
  import opened Wrappers

  /** One row of the listing. An address is relative to the sub-program the opcode is in. */
  datatype Op = Op(addr: int, opcode: string, p1: int, p2: int)

  datatype Statement = Statement(columns: seq<string>, sql: Option<string>, ops: seq<Op>)

  const NEXT := ["Next", "Prev", "VPrev", "VNext", "SorterNext", "NextIfOpen", "PrevIfOpen"]
  const YIELD := ["Yield", "SeekLT", "SeekGT", "RowSetRead", "Rewind"]
  const GOTO := ["Goto"]
  const COLUMNS := ["addr", "opcode", "p1", "p2", "p3", "p4", "p5", "comment"]

  // ---------------------------------------------------------------- loops

  /** Where in the listing opcode k jumps to. */
  function Target(ops: seq<Op>, k: nat): int
    requires k < |ops|
  {
    ops[k].p2 + k - ops[k].addr
  }

  /** Opcode k ends a loop that starts at its target. */
  predicate Closes(ops: seq<Op>, k: nat)
    requires k < |ops|
  {
    var to := Target(ops, k);
    || ops[k].opcode in NEXT
    || (ops[k].opcode in GOTO && 0 <= to <= k && (ops[to].opcode in YIELD || ops[k].p1 != 0))
  }

  /** Opcode i is in the loop that opcode k ends. */
  predicate Spans(ops: seq<Op>, k: nat, i: nat)
    requires k < |ops|
  {
    Target(ops, k) <= i < k && Closes(ops, k)
  }

  /** The opcodes before n that end a loop around i. */
  ghost function Around(ops: seq<Op>, n: nat, i: nat): set<nat>
    requires n <= |ops|
  {
    set k: nat | k < n && Spans(ops, k, i)
  }

  lemma AroundNext(ops: seq<Op>, n: nat, i: nat)
    requires n < |ops|
    ensures |Around(ops, n + 1, i)| == |Around(ops, n, i)| + if Spans(ops, n, i) then 1 else 0
  {
    assert Around(ops, n + 1, i) == Around(ops, n, i) + if Spans(ops, n, i) then {n} else {};
  }

  lemma AroundSelf(ops: seq<Op>, n: nat, i: nat)
    requires n <= |ops| && n <= i + 1
    ensures |Around(ops, n, i)| == 0
  {
    assert Around(ops, n, i) == {};
  }

  predicate Jumps(op: Op) {
    op.opcode in NEXT || op.opcode in GOTO
  }

  /** No jump goes to before the first opcode. */
  predicate Listing(ops: seq<Op>) {
    forall k :: 0 <= k < |ops| && Jumps(ops[k]) ==> 0 <= Target(ops, k)
  }

  // ---------------------------------------------------------------- sub-programs

  function Moved(s: set<nat>, n: nat): set<nat> {
    set k <- s :: n + k
  }

  lemma {:induction false} MovedSize(s: set<nat>, n: nat)
    ensures |Moved(s, n)| == |s|
  {
    if s != {} {
      var x :| x in s;
      forall y | y in Moved(s, n) ensures y == n + x || y in Moved(s - {x}, n) {
        var k :| k in s && y == n + k;
        assert k == x || k in s - {x};
      }
      assert Moved(s, n) == Moved(s - {x}, n) + {n + x};
      MovedSize(s - {x}, n);
    }
  }

  lemma SpansFirst(a: seq<Op>, b: seq<Op>, k: nat, i: nat)
    requires Listing(b) && i < |a| && k < |a + b|
    ensures Spans(a + b, k, i) <==> k < |a| && Spans(a, k, i)
  {
    if k >= |a| {
      assert (a + b)[k] == b[k - |a|];
      assert Target(a + b, k) == Target(b, k - |a|) + |a|;
    }
  }

  lemma SpansSecond(a: seq<Op>, b: seq<Op>, k: nat, i: nat)
    requires k < |b| && i < |b| && Listing(b)
    ensures Spans(a + b, |a| + k, |a| + i) <==> Spans(b, k, i)
  {
    assert (a + b)[|a| + k] == b[k];
    assert Target(a + b, |a| + k) == Target(b, k) + |a|;
  }

  /** The listing of a program and then of another that jumps only within itself is indented as
      the two would be on their own. */
  lemma SubPrograms(a: seq<Op>, b: seq<Op>, i: nat)
    requires Listing(b) && i < |a + b|
    ensures |Around(a + b, |a + b|, i)| == if i < |a| then |Around(a, |a|, i)| else |Around(b, |b|, i - |a|)|
  {
    var ops := a + b;
    if i < |a| {
      forall k: nat | k < |ops| ensures Spans(ops, k, i) <==> k < |a| && Spans(a, k, i) {
        SpansFirst(a, b, k, i);
      }
      assert Around(ops, |ops|, i) == Around(a, |a|, i);
    } else {
      var inB := Around(b, |b|, i - |a|);
      forall k | k in Around(ops, |ops|, i) ensures k in Moved(inB, |a|) {
        SpansSecond(a, b, k - |a|, i - |a|);
        assert k - |a| in inB && k == |a| + (k - |a|);
      }
      forall k | k in inB ensures |a| + k in Around(ops, |ops|, i) {
        SpansSecond(a, b, k, i - |a|);
      }
      assert Around(ops, |ops|, i) == Moved(inB, |a|);
      MovedSize(inB, |a|);
    }
  }

  // ---------------------------------------------------------------- nested loops

  /** Code as a compiler emits it: opcodes, one piece after another, and loops, whose last opcode goes
      back to their first. */
  datatype Code =
    | Simple(opcode: string)
    | Then(first: Code, second: Code)
    | Loop(body: Code, last: string, p1: int)

  function Emit(c: Code, addr: nat): (ops: seq<Op>)
    ensures ops != []
  {
    match c
    case Simple(opcode) => [Op(addr, opcode, 0, 0)]
    case Then(first, second) => var ops := Emit(first, addr); ops + Emit(second, addr + |ops|)
    case Loop(body, last, p1) => var ops := Emit(body, addr); ops + [Op(addr + |ops|, last, p1, addr)]
  }

  /** How deep each opcode is nested. */
  function Depths(c: Code): seq<nat> {
    match c
    case Simple(_) => [0]
    case Then(first, second) => Depths(first) + Depths(second)
    case Loop(body, _, _) => Deeper(Depths(body)) + [0]
  }

  function Deeper(depths: seq<nat>): seq<nat> {
    seq(|depths|, i requires 0 <= i < |depths| => depths[i] + 1)
  }

  predicate EndsLoop(opcode: string) {
    || opcode == "Next" || opcode == "Prev" || opcode == "VNext" || opcode == "VPrev"
    || opcode == "SorterNext" || opcode == "NextIfOpen" || opcode == "PrevIfOpen"
  }

  predicate StartsLoop(opcode: string) {
    opcode == "Yield" || opcode == "SeekLT" || opcode == "SeekGT" || opcode == "RowSetRead" || opcode == "Rewind"
  }

  /** Loops end in an opcode that goes round, or in a Goto with P1 set or back to an opcode that starts
      a loop; nothing else is one of these. */
  predicate Structured(c: Code) {
    match c
    case Simple(opcode) => !EndsLoop(opcode) && opcode != "Goto"
    case Then(first, second) => Structured(first) && Structured(second)
    case Loop(body, last, p1) =>
      && Structured(body)
      && (EndsLoop(last) || (last == "Goto" && (p1 != 0 || StartsLoop(Emit(body, 0)[0].opcode))))
  }

  lemma Tables(opcode: string)
    ensures opcode in NEXT <==> EndsLoop(opcode)
    ensures opcode in YIELD <==> StartsLoop(opcode)
    ensures opcode in GOTO <==> opcode == "Goto"
  {
    assert NEXT[0] == "Next" && NEXT[1] == "Prev" && NEXT[2] == "VPrev" && NEXT[3] == "VNext";
    assert NEXT[4] == "SorterNext" && NEXT[5] == "NextIfOpen" && NEXT[6] == "PrevIfOpen";
    assert YIELD[0] == "Yield" && YIELD[1] == "SeekLT" && YIELD[2] == "SeekGT" && YIELD[3] == "RowSetRead";
    assert YIELD[4] == "Rewind" && GOTO[0] == "Goto";
  }

  /** The opcodes are the same wherever the code is. */
  lemma {:induction false} Relocated(c: Code, a: nat, b: nat)
    ensures |Emit(c, a)| == |Emit(c, b)| == |Depths(c)| && Emit(c, a)[0].opcode == Emit(c, b)[0].opcode
  {
    match c
    case Simple(_) =>
    case Then(first, second) =>
      Relocated(first, a, b);
      Relocated(second, a + |Emit(first, a)|, b + |Emit(first, b)|);
    case Loop(body, _, _) => Relocated(body, a, b);
  }

  /** A loop around code that is indented already. */
  lemma LoopAround(body: seq<Op>, last: Op, i: nat)
    requires body != [] && last.p2 == last.addr - |body| && i <= |body|
    requires Closes(body + [last], |body|)
    ensures var ops := body + [last];
            |Around(ops, |ops|, i)| == if i < |body| then |Around(body, |body|, i)| + 1 else 0
  {
    var ops := body + [last];
    AroundNext(ops, |body|, i);
    if i < |body| {
      forall k: nat | k < |body| ensures Spans(ops, k, i) <==> Spans(body, k, i) {
        assert ops[k] == body[k];
      }
      assert Around(ops, |body|, i) == Around(body, |body|, i);
    } else {
      AroundSelf(ops, |body|, i);
    }
  }

  lemma LastCloses(c: Code, addr: nat)
    requires c.Loop? && Structured(c)
    ensures var ops := Emit(c, addr); Closes(ops, |ops| - 1)
  {
    Tables(c.last);
    Relocated(c.body, addr, 0);
    Tables(Emit(c.body, addr)[0].opcode);
  }

  lemma {:induction false} EmittedListing(c: Code, addr: nat)
    requires Structured(c)
    ensures Listing(Emit(c, addr))
  {
    match c
    case Simple(opcode) => Tables(opcode);
    case Then(first, second) =>
      EmittedListing(first, addr);
      EmittedListing(second, addr + |Emit(first, addr)|);
      ListingJoined(Emit(first, addr), Emit(second, addr + |Emit(first, addr)|));
    case Loop(body, last, p1) =>
      EmittedListing(body, addr);
      ListingJoined(Emit(body, addr), []);
      var ops := Emit(c, addr);
      forall k | 0 <= k < |ops| && Jumps(ops[k]) ensures 0 <= Target(ops, k) {
        assert k < |ops| - 1 ==> ops[k] == Emit(body, addr)[k] && Target(ops, k) == Target(Emit(body, addr), k);
      }
  }

  lemma ListingJoined(a: seq<Op>, b: seq<Op>)
    requires Listing(a) && Listing(b)
    ensures Listing(a + b)
  {
    var ops := a + b;
    forall k | 0 <= k < |ops| && Jumps(ops[k]) ensures 0 <= Target(ops, k) {
      if k < |a| {
        assert ops[k] == a[k] && Target(ops, k) == Target(a, k);
      } else {
        assert ops[k] == b[k - |a|] && Target(ops, k) == Target(b, k - |a|) + |a|;
      }
    }
  }

  /** Nested loops are indented by how deep they are nested. */
  lemma {:induction false} NestedLoops(c: Code, addr: nat, i: nat)
    requires Structured(c) && i < |Emit(c, addr)|
    ensures |Emit(c, addr)| == |Depths(c)|
    ensures |Around(Emit(c, addr), |Emit(c, addr)|, i)| == Depths(c)[i]
  {
    var ops := Emit(c, addr);
    Relocated(c, addr, addr);
    match c
    case Simple(opcode) =>
      AroundNext(ops, 0, 0);
      AroundSelf(ops, 0, 0);
    case Then(first, second) =>
      var a, b := Emit(first, addr), Emit(second, addr + |Emit(first, addr)|);
      EmittedListing(second, addr + |a|);
      SubPrograms(a, b, i);
      Relocated(first, addr, addr);
      if i < |a| { NestedLoops(first, addr, i); } else { NestedLoops(second, addr + |a|, i - |a|); }
    case Loop(body, last, p1) =>
      var a := Emit(body, addr);
      LastCloses(c, addr);
      LoopAround(a, ops[|a|], i);
      Relocated(body, addr, addr);
      if i < |a| { NestedLoops(body, addr, i); }
  }

  // ---------------------------------------------------------------- explain_data_prepare

  predicate Blank(c: char) {
    c == ' ' || c == '\t' || c == '\n' || c as int == 12 || c == '\r'
  }

  function SkipBlanks(s: string): string {
    if s != "" && Blank(s[0]) then SkipBlanks(s[1..]) else s
  }

  function Lower(c: char): char {
    if 'A' <= c <= 'Z' then c + (32 as char) else c
  }

  /** Its text starts with EXPLAIN, in any case, and it has the columns of an EXPLAIN. */
  predicate Explains(s: Statement) {
    && s.columns == COLUMNS
    && s.sql.Some?
    && var z := SkipBlanks(s.sql.value);
       |z| >= 7 && forall i :: 0 <= i < 7 ==> Lower(z[i]) == "explain"[i]
  }

  method StrInArray(s: string, names: seq<string>) returns (found: bool)
    ensures found == (s in names)
  {
    for i := 0 to |names|
      invariant s !in names[..i]
    {
      if s == names[i] { return true; }
    }
    found := false;
  }

  /** Reallocates to a larger size, keeping the first n entries. */
  method Realloc<T(0)>(a: array?<T>, n: nat, size: nat) returns (b: array<T>)
    requires n <= size && (n > 0 ==> a != null && n <= a.Length)
    ensures fresh(b) && b.Length == size
    ensures forall i :: 0 <= i < n ==> b[i] == a[i]
  {
    b := new T[size];
    for i := 0 to n
      invariant forall j :: 0 <= j < i ==> b[j] == a[j]
    {
      b[i] := a[i];
    }
  }

  class ShellState {
    var mode: nat
    var cMode: nat
    var aiIndent: array?<int>
    var nIndent: nat
    var iIndent: nat

    constructor (m: nat)
      ensures mode == cMode == m && aiIndent == null && nIndent == iIndent == 0
    {
      mode, cMode, aiIndent, nIndent, iIndent := m, m, null, 0, 0;
    }

    /** The first n opcodes are in, and indented as far as those opcodes say. */
    ghost predicate Indented(ops: seq<Op>, n: nat)
      reads this, aiIndent
    {
      && n <= |ops| && nIndent == n && aiIndent != null && n <= aiIndent.Length
      && forall i: nat :: i < n ==> aiIndent[i] == 2 * |Around(ops, n, i)|
    }

    /** Adds 2 to the indent of the opcodes from one up to another. */
    method Indent(from: int, to: nat)
      requires aiIndent != null && to <= aiIndent.Length && 0 <= from
      modifies aiIndent
      ensures forall j :: 0 <= j < aiIndent.Length ==>
        aiIndent[j] == old(aiIndent[j]) + if from <= j < to then 2 else 0
    {
      var i := from;
      while i < to
        invariant from <= i && if from < to then i <= to else i == from
        invariant forall j :: 0 <= j < aiIndent.Length ==>
          aiIndent[j] == old(aiIndent[j]) + if from <= j < i then 2 else 0
      {
        aiIndent[i] := aiIndent[i] + 2;
        i := i + 1;
      }
    }

    /** Takes in opcode iOp, for which there is room. */
    method TakeOp(ops: seq<Op>, iOp: nat, abYield: array<bool>)
      requires Listing(ops) && iOp < |ops| && iOp < abYield.Length
      requires aiIndent != null && iOp < aiIndent.Length
      requires forall i: nat :: i < iOp ==> aiIndent[i] == 2 * |Around(ops, iOp, i)|
      requires forall i :: 0 <= i < iOp ==> abYield[i] == (ops[i].opcode in YIELD)
      modifies this`nIndent, aiIndent, abYield
      ensures Indented(ops, iOp + 1)
      ensures forall i :: 0 <= i <= iOp ==> abYield[i] == (ops[i].opcode in YIELD)
    {
      var op := ops[iOp];
      var p2op := op.p2 + (iOp - op.addr);
      abYield[iOp] := StrInArray(op.opcode, YIELD);
      aiIndent[iOp] := 0;
      AroundSelf(ops, iOp, iOp);
      nIndent := iOp + 1;
      forall i: nat | i < iOp + 1
        ensures |Around(ops, iOp + 1, i)| == |Around(ops, iOp, i)| + if Spans(ops, iOp, i) then 1 else 0
      {
        AroundNext(ops, iOp, i);
      }
      var isNext := StrInArray(op.opcode, NEXT);
      if isNext {
        Indent(p2op, iOp);
      }
      var isGoto := StrInArray(op.opcode, GOTO);
      if isGoto && p2op < nIndent && (abYield[p2op] || op.p1 != 0) {
        Indent(p2op, iOp);
      }
    }

    method ExplainDataPrepare(s: Statement)
      requires Listing(s.ops)
      modifies this, aiIndent
      ensures mode == old(mode)
      ensures Explains(s) && s.ops != [] ==> Indented(s.ops, |s.ops|) && fresh(aiIndent)
      ensures Explains(s) ==> iIndent == 0 && cMode == old(cMode)
      ensures !Explains(s) || s.ops == [] ==> aiIndent == old(aiIndent) && nIndent == old(nIndent)
      ensures !Explains(s) && s.sql.Some? && s.ops != [] ==> cMode == old(mode)
    {
      var verified := Verified(s);
      if !verified { return; }
      var abYield: array?<bool> := null;
      var nAlloc := 0;
      for iOp := 0 to |s.ops|
        invariant mode == old(mode) && cMode == old(cMode)
        invariant iOp == 0 ==> nAlloc == 0 && aiIndent == old(aiIndent) && nIndent == old(nIndent)
        invariant iOp > 0 ==> Explains(s) && Indented(s.ops, iOp) && fresh(aiIndent) && aiIndent.Length == nAlloc
        invariant iOp > 0 ==> abYield != null && fresh(abYield) && abYield.Length == nAlloc
        invariant iOp > 0 ==> forall i :: 0 <= i < iOp ==> abYield[i] == (s.ops[i].opcode in YIELD)
        invariant iOp <= nAlloc
      {
        if iOp >= nAlloc {
          if iOp == 0 && s.columns != COLUMNS {
            cMode := mode;
            return;
          }
          nAlloc := nAlloc + 100;
          aiIndent := Realloc(aiIndent, iOp, nAlloc);
          abYield := Realloc(abYield, iOp, nAlloc);
        }
        TakeOp(s.ops, iOp, abYield);
      }
      iIndent := 0;
    }

    /** The checks made before the statement is run. */
    method Verified(s: Statement) returns (ok: bool)
      modifies this`cMode
      ensures ok <==> |s.columns| == 8 && Explains(s.(columns := COLUMNS))
      ensures cMode == if ok || (|s.columns| == 8 && s.sql.None?) then old(cMode) else mode
    {
      ok := false;
      if |s.columns| != 8 {
        cMode := mode;
        return;
      }
      if s.sql.None? { return; }
      var z := SkipBlanks(s.sql.value);
      if |z| < 7 || exists i :: 0 <= i < 7 && Lower(z[i]) != "explain"[i] {
        cMode := mode;
        return;
      }
      ok := true;
    }
  }
}
