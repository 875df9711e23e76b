/** testcase_glob, against a declarative match relation. */
module Glob {
  import opened CString

  datatype Item = One(c: char) | Range(lo: char, hi: char)

  datatype Token =
    | Star
    | Any
    | Span
    | Number
    | Literal(c: char)
    | Class(negated: bool, items: seq<Item>)
    | Unclosed

  datatype Pattern = End | Then(head: Token, tail: Pattern)

  // ---------------------------------------------------------------- the match relation

  // A span and a number are taken to be as long as they can be.  The documentation does not say
  // so: see GlobDocumented.

  predicate InItem(c: char, item: Item) {
    match item
    case One(d) => c == d
    case Range(lo, hi) => Signed(lo) <= Signed(c) <= Signed(hi)
  }

  predicate InItems(c: char, items: seq<Item>) {
    exists i :: 0 <= i < |items| && InItem(c, items[i])
  }

  predicate InClass(c: char, negated: bool, items: seq<Item>) {
    InItems(c, items) != negated
  }

  predicate AllDigits(z: string, a: nat, b: nat)
    requires a <= b <= |z|
  {
    forall k :: a <= k < b ==> IsDigit(z[k])
  }

  /** d starts the digits of a number written from a: at a, or just after a sign. */
  predicate SignTo(z: string, a: nat, d: nat)
    requires a <= |z|
  {
    d == a || (d == a + 1 && a < |z| && (z[a] == '-' || z[a] == '+'))
  }

  /** Token t matches the piece of text z from a to b. */
  predicate Fits(t: Token, z: string, a: nat, b: nat)
    requires a <= b <= |z|
  {
    match t
    case Star => true
    case Any => b == a + 1
    case Span => a < b && AllSpace(z, a, b) && !IsSpace(At(z, b))
    case Number => exists d :: a <= d < b && SignTo(z, a, d) && AllDigits(z, d, b) && !IsDigit(At(z, b))
    case Literal(c) => b == a + 1 && z[a] == c
    case Class(negated, items) => b == a + 1 && InClass(z[a], negated, items)
    case Unclosed => false
  }

  /** Pattern p matches text z from a on: the text splits into one piece for each token, and white
      space at the end. */
  ghost predicate Matches(p: Pattern, z: string, a: nat)
    requires a <= |z|
  {
    match p
    case End => AllSpace(z, a, |z|)
    case Then(t, rest) => exists b :: a <= b <= |z| && Fits(t, z, a, b) && Matches(rest, z, b)
  }

  // ---------------------------------------------------------------- patterns as text

  datatype Listed = NoBracket | Listed(items: seq<Item>, next: nat)

  /** The items from i up to the closing bracket; prior is the character a range may start from. */
  function Items(g: string, i: nat, prior: char): (r: Listed)
    requires i <= |g|
    ensures r.Listed? ==> i < r.next <= |g|
    decreases |g| - i
  {
    if i == |g| then NoBracket
    else if g[i] == ']' then Listed([], i + 1)
    else if g[i] == '-' && At(g, i + 1) != ']' && i + 1 < |g| && Signed(prior) > 0 then
      match Items(g, i + 2, NUL)
      case NoBracket => NoBracket
      case Listed(items, next) => Listed([Range(prior, g[i + 1])] + items, next)
    else
      match Items(g, i + 1, g[i])
      case NoBracket => NoBracket
      case Listed(items, next) => Listed([One(g[i])] + items, next)
  }

  /** The class whose opening bracket is just before i: an optional ^, then an optional ] that is
      itself a member, then the items. */
  function ClassAt(g: string, i: nat): (r: Listed)
    requires i <= |g|
    ensures r.Listed? ==> i < r.next <= |g|
  {
    var j := if At(g, i) == '^' then i + 1 else i;
    if At(g, j) == ']' then
      match Items(g, j + 1, NUL)
      case NoBracket => NoBracket
      case Listed(items, next) => Listed([One(']')] + items, next)
    else Items(g, j, NUL)
  }

  /** The pattern written in g from i on.  With literal set, a # or a white space character right
      after a run of * and ? (run) stands for itself: that is how testcase_glob reads it.  With
      literal clear this is the documented reading. */
  function Parse(g: string, i: nat, run: bool, literal: bool): Pattern
    requires i <= |g|
    decreases |g| - i
  {
    if i == |g| then End
    else
      var c := g[i];
      if c == '*' then Then(Star, Parse(g, i + 1, literal, literal))
      else if c == '?' then Then(Any, Parse(g, i + 1, run, literal))
      else if c == '[' then
        match ClassAt(g, i + 1)
        case NoBracket => Then(Unclosed, End)
        case Listed(items, next) => Then(Class(At(g, i + 1) == '^', items), Parse(g, next, false, literal))
      else if IsSpace(c) && !run then Then(Span, Parse(g, SpaceEnd(g, i + 1), false, literal))
      else if c == '#' && !run then Then(Number, Parse(g, i + 1, false, literal))
      else Then(Literal(c), Parse(g, i + 1, false, literal))
  }

  function CodePattern(g: string): Pattern { Parse(g, 0, false, true) }

  function DocumentedPattern(g: string): Pattern { Parse(g, 0, false, false) }

  // ---------------------------------------------------------------- how each token consumes text

  lemma SpanStep(rest: Pattern, z: string, a: nat, e: nat)
    requires a <= e <= |z| && AllSpace(z, a, e) && !IsSpace(At(z, e))
    ensures Matches(Then(Span, rest), z, a) <==> a < e && Matches(rest, z, e)
  {
    if b :| a <= b <= |z| && Fits(Span, z, a, b) && Matches(rest, z, b) {
      assert b == e;
    }
    if a < e && Matches(rest, z, e) {
      assert Fits(Span, z, a, e);
    }
  }

  lemma NumberStep(rest: Pattern, z: string, a: nat, d: nat, e: nat)
    requires a <= d <= e <= |z|
    requires d == if (At(z, a) == '-' || At(z, a) == '+') && IsDigit(At(z, a + 1)) then a + 1 else a
    requires AllDigits(z, d, e) && !IsDigit(At(z, e))
    ensures Matches(Then(Number, rest), z, a) <==> d < e && Matches(rest, z, e)
  {
    if b :| a <= b <= |z| && Fits(Number, z, a, b) && Matches(rest, z, b) {
      var d' :| a <= d' < b && SignTo(z, a, d') && AllDigits(z, d', b) && !IsDigit(At(z, b));
      assert IsDigit(z[d']);
      assert d' == d;
      assert b == e;
    }
    if d < e && Matches(rest, z, e) {
      assert SignTo(z, a, d);
      assert Fits(Number, z, a, e);
    }
  }

  lemma InItemsFirst(c: char, item: Item, items: seq<Item>)
    ensures InItems(c, [item] + items) == (InItem(c, item) || InItems(c, items))
  {
    var all := [item] + items;
    if i :| 0 <= i < |items| && InItem(c, items[i]) {
      assert InItem(c, all[i + 1]);
    }
    if InItem(c, item) {
      assert InItem(c, all[0]);
    }
  }

  lemma OneStep(t: Token, rest: Pattern, z: string, a: nat)
    requires a <= |z| && (t.Any? || t.Literal? || t.Class?)
    ensures Matches(Then(t, rest), z, a) <==> a < |z| && Fits(t, z, a, a + 1) && Matches(rest, z, a + 1)
  {
  }

  lemma StarStar(rest: Pattern, z: string, a: nat)
    requires a <= |z|
    ensures Matches(Then(Star, Then(Star, rest)), z, a) == Matches(Then(Star, rest), z, a)
  {
    if b :| a <= b <= |z| && Fits(Star, z, a, b) && Matches(rest, z, b) {
      assert Fits(Star, z, a, a) && Matches(Then(Star, rest), z, a);
    }
  }

  lemma StarSplit(rest: Pattern, z: string, a: nat) returns (b: nat)
    requires a <= |z| && Matches(Then(Star, rest), z, a)
    ensures a <= b <= |z| && Matches(rest, z, b)
  {
    b :| a <= b <= |z| && Fits(Star, z, a, b) && Matches(rest, z, b);
  }

  lemma StarAny(rest: Pattern, z: string, a: nat)
    requires a <= |z|
    ensures Matches(Then(Star, Then(Any, rest)), z, a) <==> a < |z| && Matches(Then(Star, rest), z, a + 1)
  {
    if b :| a <= b <= |z| && Fits(Star, z, a, b) && Matches(Then(Any, rest), z, b) {
      OneStep(Any, rest, z, b);
      assert Fits(Star, z, a + 1, b + 1);
    }
    if a < |z| && Matches(Then(Star, rest), z, a + 1) {
      var b := StarSplit(rest, z, a + 1);
      OneStep(Any, rest, z, b - 1);
      assert Fits(Star, z, a, b - 1);
    }
  }

  lemma StarLiteral(c: char, rest: Pattern, z: string, a: nat)
    requires a <= |z|
    ensures Matches(Then(Star, Then(Literal(c), rest)), z, a) <==>
            exists k :: a <= k < |z| && z[k] == c && Matches(rest, z, k + 1)
  {
    if b :| a <= b <= |z| && Fits(Star, z, a, b) && Matches(Then(Literal(c), rest), z, b) {
      OneStep(Literal(c), rest, z, b);
    }
    if k :| a <= k < |z| && z[k] == c && Matches(rest, z, k + 1) {
      OneStep(Literal(c), rest, z, k);
      assert Fits(Star, z, a, k);
    }
  }

  // ---------------------------------------------------------------- the matcher

  method SkipSpace(s: string, i: nat) returns (e: nat)
    requires i <= |s|
    ensures e == SpaceEnd(s, i)
  {
    e := i;
    while IsSpace(At(s, e))
      invariant i <= e <= |s| && SpaceEnd(s, e) == SpaceEnd(s, i)
      decreases |s| - e
    {
      e := e + 1;
    }
  }

  /** Reads the items of a class up to its closing bracket, if it has one. */
  method ScanItems(g: string, start: nat, c: char, already: bool) returns (ok: bool, seen: bool, next: nat)
    requires start <= |g| && NulFree(g)
    ensures var r := Items(g, start, NUL);
            ok == r.Listed? && (ok ==> next == r.next && seen == (already || InItems(c, r.items)))
  {
    var prior := NUL;
    seen := already;
    var i := start;
    ghost var whole := Items(g, start, NUL);
    while At(g, i) != NUL && At(g, i) != ']'
      invariant i <= |g|
      invariant whole.Listed? == Items(g, i, prior).Listed?
      invariant whole.Listed? ==>
                  whole.next == Items(g, i, prior).next &&
                  (already || InItems(c, whole.items)) == (seen || InItems(c, Items(g, i, prior).items))
      decreases |g| - i
    {
      var c2 := g[i];
      ghost var here := Items(g, i, prior);
      ghost var item;
      if c2 == '-' && At(g, i + 1) != ']' && At(g, i + 1) != NUL && Signed(prior) > 0 {
        c2 := g[i + 1];
        if Signed(c) >= Signed(prior) && Signed(c) <= Signed(c2) { seen := true; }
        item := Range(prior, c2);
        prior := NUL;
        i := i + 2;
      } else {
        if c == c2 { seen := true; }
        item := One(c2);
        prior := c2;
        i := i + 1;
      }
      if here.Listed? {
        InItemsFirst(c, item, Items(g, i, prior).items);
      }
    }
    ok := At(g, i) != NUL;
    next := i + 1;
  }

  /** Reads a class from just after its opening bracket.  ok: it is closed; hit: c is one of the
      characters it admits. */
  method ScanClass(g: string, start: nat, c: char) returns (ok: bool, hit: bool, next: nat)
    requires start <= |g| && NulFree(g)
    ensures ok == ClassAt(g, start).Listed?
    ensures ok ==> next == ClassAt(g, start).next &&
                   hit == InClass(c, At(g, start) == '^', ClassAt(g, start).items)
  {
    var seen, invert := false, false;
    var i := start;
    if At(g, i) == '^' {
      invert := true;
      i := i + 1;
    }
    if At(g, i) == ']' {
      if c == ']' { seen := true; }
      i := i + 1;
    }
    ok, seen, next := ScanItems(g, i, c, seen);
    hit := seen != invert;
    if ok && ClassAt(g, start).items != Items(g, i, NUL).items {
      InItemsFirst(c, One(']'), Items(g, i, NUL).items);
    }
  }

  /** Where the digits of a number at i start, after a sign if a digit follows it. */
  function DigitsFrom(z: string, i: nat): nat
    requires i <= |z|
  {
    if (At(z, i) == '-' || At(z, i) == '+') && IsDigit(At(z, i + 1)) then i + 1 else i
  }

  method ScanNumber(z: string, i: nat) returns (ok: bool, e: nat)
    requires i <= |z|
    ensures var d := DigitsFrom(z, i);
            d <= e <= |z| && AllDigits(z, d, e) && !IsDigit(At(z, e)) && ok == (d < e)
  {
    e := i;
    if (At(z, e) == '-' || At(z, e) == '+') && IsDigit(At(z, e + 1)) {
      e := e + 1;
    }
    if !IsDigit(At(z, e)) {
      return false, e;
    }
    var d := e;
    e := e + 1;
    while IsDigit(At(z, e))
      invariant d < e <= |z| && AllDigits(z, d, e)
      decreases |z| - e
    {
      e := e + 1;
    }
    ok := true;
  }

  /** One token other than a star: whether it fits, and what is left of pattern and text. */
  method GlobToken(g: string, i: nat, z: string, j: nat) returns (ok: bool, i': nat, j': nat)
    requires NulFree(g) && NulFree(z) && i < |g| && j <= |z| && g[i] != '*'
    ensures ok ==> i < i' <= |g| && j <= j' <= |z|
    ensures Matches(Parse(g, i, false, true), z, j) <==> ok && Matches(Parse(g, i', false, true), z, j')
  {
    ok, i', j' := false, i, j;
    var c := g[i];
    if IsSpace(c) {
      SpanStep(Parse(g, SpaceEnd(g, i + 1), false, true), z, j, SpaceEnd(z, j));
      if !IsSpace(At(z, j)) { return; }
      i' := SkipSpace(g, i + 1);
      j' := SkipSpace(z, j);
    } else if c == '?' {
      if j == |z| { return; }
      OneStep(Any, Parse(g, i + 1, false, true), z, j);
      i', j' := i + 1, j + 1;
    } else if c == '[' {
      if j == |z| { return; }
      var closed, hit, next := ScanClass(g, i + 1, z[j]);
      if !closed || !hit { return; }
      i', j' := next, j + 1;
    } else if c == '#' {
      var number, e := ScanNumber(z, j);
      NumberStep(Parse(g, i + 1, false, true), z, j, DigitsFrom(z, j), e);
      if !number { return; }
      i', j' := i + 1, e;
    } else {
      if j == |z| || c != z[j] { return; }
      OneStep(Literal(c), Parse(g, i + 1, false, true), z, j);
      i', j' := i + 1, j + 1;
    }
    ok := true;
  }

  /** Whether the text z from zi on matches the pattern written in g from gi on. */
  method TestcaseGlob(g: string, gi: nat, z: string, zi: nat) returns (r: bool)
    requires NulFree(g) && NulFree(z) && gi <= |g| && zi <= |z|
    ensures r == Matches(Parse(g, gi, false, true), z, zi)
    decreases |g| - gi, 1
  {
    var i, j := gi, zi;
    while At(g, i) != NUL
      invariant gi <= i <= |g| && zi <= j <= |z|
      invariant Matches(Parse(g, gi, false, true), z, zi) == Matches(Parse(g, i, false, true), z, j)
      decreases |g| - i
    {
      if g[i] == '*' {
        r := GlobStar(g, i + 1, z, j);
        return;
      }
      var ok;
      ok, i, j := GlobToken(g, i, z, j);
      if !ok { return false; }
    }
    var e := SkipSpace(z, j);
    r := e == |z|;
  }

  /** The rest of the match once a * has been read. */
  method GlobStar(g: string, gi: nat, z: string, zi: nat) returns (r: bool)
    requires NulFree(g) && NulFree(z) && gi <= |g| && zi <= |z|
    ensures r == Matches(Then(Star, Parse(g, gi, true, true)), z, zi)
    decreases |g| - gi, 3
  {
    var i, j := gi, zi;
    while At(g, i) == '*' || At(g, i) == '?'
      invariant gi <= i <= |g| && zi <= j <= |z|
      invariant Matches(Then(Star, Parse(g, gi, true, true)), z, zi) ==
                Matches(Then(Star, Parse(g, i, true, true)), z, j)
      decreases |g| - i
    {
      if g[i] == '?' {
        StarAny(Parse(g, i + 1, true, true), z, j);
        if j == |z| { return false; }
        j := j + 1;
      } else {
        StarStar(Parse(g, i + 1, true, true), z, j);
      }
      i := i + 1;
    }
    if i == |g| {
      assert Fits(Star, z, j, |z|) && Matches(End, z, |z|);
      return true;
    }
    var c := g[i];
    if c == '[' {
      r := GlobStarClass(g, i, z, j);
    } else {
      r := GlobStarLiteral(g, i + 1, z, j, c);
    }
  }

  method GlobStarClass(g: string, i: nat, z: string, zi: nat) returns (r: bool)
    requires NulFree(g) && NulFree(z) && i < |g| && g[i] == '[' && zi <= |z|
    ensures r == Matches(Then(Star, Parse(g, i, true, true)), z, zi)
    decreases |g| - i, 2
  {
    var j := zi;
    ghost var p := Parse(g, i, true, true);
    while j < |z|
      invariant zi <= j <= |z|
      invariant forall k :: zi <= k < j ==> !Matches(p, z, k)
    {
      var found := TestcaseGlob(g, i, z, j);
      if found {
        assert Fits(Star, z, zi, j);
        return true;
      }
      j := j + 1;
    }
    assert !Matches(p, z, |z|);
    r := false;
  }

  method GlobStarLiteral(g: string, i: nat, z: string, zi: nat, c: char) returns (r: bool)
    requires NulFree(g) && NulFree(z) && i <= |g| && zi <= |z| && c != NUL
    ensures r == Matches(Then(Star, Then(Literal(c), Parse(g, i, false, true))), z, zi)
    decreases |g| - i, 2
  {
    ghost var p := Parse(g, i, false, true);
    StarLiteral(c, p, z, zi);
    var j := zi;
    while j < |z|
      invariant zi <= j <= |z|
      invariant forall k :: zi <= k < j && z[k] == c ==> !Matches(p, z, k + 1)
      decreases |z| - j
    {
      while z[j] != c
        invariant zi <= j < |z|
        invariant forall k :: zi <= k < j && z[k] == c ==> !Matches(p, z, k + 1)
        decreases |z| - j
      {
        j := j + 1;
        if j == |z| { return false; }
      }
      j := j + 1;
      r := TestcaseGlob(g, i, z, j);
      if r { return; }
    }
    r := false;
  }
}
