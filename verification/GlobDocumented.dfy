/** What testcase_glob documents, word for word, and exactly when its code does that. */
module GlobDocumented {
  import opened CString
  import opened Glob

  // ---------------------------------------------------------------- the documented relation

  /** Token t matches the piece of z from a to b: any digits with an optional sign, any span of
      white space. */
  predicate FitsSome(t: Token, z: string, a: nat, b: nat)
    requires a <= b <= |z|
  {
    match t
    case Span => a < b && AllSpace(z, a, b)
    case Number => exists d :: a <= d < b && SignTo(z, a, d) && AllDigits(z, d, b)
    case _ => Fits(t, z, a, b)
  }

  ghost predicate MatchesSome(p: Pattern, z: string, a: nat)
    requires a <= |z|
  {
    match p
    case End => AllSpace(z, a, |z|)
    case Then(t, rest) => exists b :: a <= b <= |z| && FitsSome(t, z, a, b) && MatchesSome(rest, z, b)
  }

  /** The text z matches pattern g as the documentation has it. */
  ghost predicate Documented(g: string, z: string) {
    MatchesSome(DocumentedPattern(g), z, 0)
  }

  predicate IsText(z: string) {
    NulFree(z) && Bytes(z)
  }

  predicate IsTextByte(c: char) {
    c != NUL && c as int < 256
  }

  // ---------------------------------------------------------------- the condition

  /** No run of * and ? that contains a * is directly followed by # or white space.  run: such a
      run has just been read. */
  predicate StarsPlain(p: Pattern, run: bool) {
    match p
    case End => true
    case Then(Star, rest) => StarsPlain(rest, true)
    case Then(Any, rest) => StarsPlain(rest, run)
    case Then(Span, rest) => !run && StarsPlain(rest, false)
    case Then(Number, rest) => !run && StarsPlain(rest, false)
    case Then(_, rest) => StarsPlain(rest, false)
  }

  lemma {:induction false} PlainReading(g: string, i: nat, run: bool)
    requires i <= |g| && StarsPlain(Parse(g, i, false, false), run)
    ensures Parse(g, i, run, true) == Parse(g, i, false, false)
    decreases |g| - i
  {
    if i < |g| {
      var c := g[i];
      if c == '*' {
        PlainReading(g, i + 1, true);
      } else if c == '?' {
        PlainReading(g, i + 1, run);
      } else if c == '[' {
        if ClassAt(g, i + 1).Listed? { PlainReading(g, ClassAt(g, i + 1).next, false); }
      } else if IsSpace(c) {
        PlainReading(g, SpaceEnd(g, i + 1), false);
      } else {
        PlainReading(g, i + 1, false);
      }
    }
  }

  /** The piece for t may be just c. */
  predicate OneByte(t: Token, c: char) {
    match t
    case Star => false
    case Any => true
    case Span => IsSpace(c)
    case Number => IsDigit(c)
    case Literal(d) => c == d
    case Class(negated, items) => InClass(c, negated, items)
    case Unclosed => false
  }

  /** A digit, or white space. */
  predicate OfKind(c: char, digit: bool) {
    if digit then IsDigit(c) else IsSpace(c)
  }

  /** After any stars, p may start with a digit (or with white space). */
  ghost predicate MayStart(p: Pattern, digit: bool) {
    match p
    case End => false
    case Then(Star, rest) => MayStart(rest, digit)
    case Then(t, rest) => exists c :: IsTextByte(c) && OfKind(c, digit) && OneByte(t, c)
  }

  /** What follows a number cannot start with a digit, nor what follows a span with white space. */
  ghost predicate Clear(p: Pattern) {
    match p
    case End => true
    case Then(t, rest) =>
      && (t.Number? ==> !MayStart(rest, true))
      && (t.Span? ==> !MayStart(rest, false))
      && Clear(rest)
  }

  /** Some text fits each token: every class is closed and has a member. */
  ghost predicate Possible(p: Pattern) {
    match p
    case End => true
    case Then(t, rest) => (t.Star? || exists c :: IsTextByte(c) && OneByte(t, c)) && Possible(rest)
  }

  // ---------------------------------------------------------------- longest pieces are enough

  lemma {:induction false} MatchesIsSome(p: Pattern, z: string, a: nat)
    requires a <= |z| && Matches(p, z, a)
    ensures MatchesSome(p, z, a)
  {
    if p.Then? {
      var b :| a <= b <= |z| && Fits(p.head, z, a, b) && Matches(p.tail, z, b);
      MatchesIsSome(p.tail, z, b);
      assert FitsSome(p.head, z, a, b);
    }
  }

  lemma StartsHere(p: Pattern, z: string, a: nat, b: nat, digit: bool)
    requires p.Then? && !p.head.Star? && a < b <= |z| && IsText(z)
    requires FitsSome(p.head, z, a, b) && OfKind(z[a], digit)
    ensures MayStart(p, digit)
  {
    assert IsTextByte(z[a]) && OneByte(p.head, z[a]);
  }

  /** Where p matches, it also matches after digits (or white space) it cannot start with. */
  lemma {:induction false} MatchesLater(p: Pattern, z: string, b: nat, e: nat, digit: bool)
    requires b <= e <= |z| && IsText(z) && MatchesSome(p, z, b) && !MayStart(p, digit)
    requires forall k :: b <= k < e ==> OfKind(z[k], digit)
    ensures MatchesSome(p, z, e)
  {
    if b < e && p.Then? {
      var m :| b <= m <= |z| && FitsSome(p.head, z, b, m) && MatchesSome(p.tail, z, m);
      if p.head.Star? {
        var n := if m < e then e else m;
        MatchesLater(p.tail, z, m, n, digit);
        assert FitsSome(Star, z, e, n);
      } else {
        StartsHere(p, z, b, m, digit);
      }
    }
  }

  /** The end of the digits (or of the white space) at i. */
  function KindEnd(z: string, i: nat, digit: bool): (e: nat)
    requires i <= |z|
    ensures i <= e <= |z| && !OfKind(At(z, e), digit)
    ensures forall k :: i <= k < e ==> OfKind(z[k], digit)
    decreases |z| - i
  {
    if i < |z| && OfKind(z[i], digit) then KindEnd(z, i + 1, digit) else i
  }

  lemma {:induction false} ClearIsLongest(p: Pattern, z: string, a: nat)
    requires a <= |z| && IsText(z) && Clear(p) && MatchesSome(p, z, a)
    ensures Matches(p, z, a)
  {
    if p.Then? {
      var b :| a <= b <= |z| && FitsSome(p.head, z, a, b) && MatchesSome(p.tail, z, b);
      if p.head.Number? || p.head.Span? {
        var e := KindEnd(z, b, p.head.Number?);
        MatchesLater(p.tail, z, b, e, p.head.Number?);
        ClearIsLongest(p.tail, z, e);
        Longest(p.head, z, a, b, e);
      } else {
        ClearIsLongest(p.tail, z, b);
        assert Fits(p.head, z, a, b);
      }
    }
  }

  lemma Longest(t: Token, z: string, a: nat, b: nat, e: nat)
    requires (t.Number? || t.Span?) && a <= b <= |z| && FitsSome(t, z, a, b) && e == KindEnd(z, b, t.Number?)
    ensures Fits(t, z, a, e)
  {
    if t.Number? {
      var d :| a <= d < b && SignTo(z, a, d) && AllDigits(z, d, b);
      assert SignTo(z, a, d) && AllDigits(z, d, e);
    }
  }

  // ---------------------------------------------------------------- shortest texts

  function Need(t: Token): nat { if t.Star? then 0 else 1 }

  /** The length of the shortest texts p matches. */
  function Least(p: Pattern): nat {
    match p
    case End => 0
    case Then(t, rest) => Need(t) + Least(rest)
  }

  lemma {:induction false} AtLeast(p: Pattern, z: string, a: nat)
    requires a <= |z| && Matches(p, z, a)
    ensures Least(p) <= |z| - a
  {
    if p.Then? {
      var b :| a <= b <= |z| && Fits(p.head, z, a, b) && Matches(p.tail, z, b);
      AtLeast(p.tail, z, b);
    }
  }

  /** A shortest text has no room for any piece to be longer than it must. */
  lemma Forced(t: Token, rest: Pattern, z: string, a: nat)
    requires a <= |z| && Matches(Then(t, rest), z, a) && |z| - a <= Least(Then(t, rest))
    ensures a + Need(t) <= |z| && Fits(t, z, a, a + Need(t)) && Matches(rest, z, a + Need(t))
  {
    var b :| a <= b <= |z| && Fits(t, z, a, b) && Matches(rest, z, b);
    AtLeast(rest, z, b);
  }

  lemma NotForced(t: Token, rest: Pattern, z: string, a: nat)
    requires a + Need(t) <= |z| <= a + Least(Then(t, rest))
    requires !Fits(t, z, a, a + Need(t)) || !Matches(rest, z, a + Need(t))
    ensures !Matches(Then(t, rest), z, a)
  {
    if Matches(Then(t, rest), z, a) {
      Forced(t, rest, z, a);
    }
  }

  /** One byte for each token that needs one. */
  predicate Tight(p: Pattern, z: string, a: nat)
    requires a <= |z|
  {
    match p
    case End => a == |z|
    case Then(t, rest) =>
      && a + Need(t) <= |z|
      && (t.Star? || OneByte(t, z[a]))
      && Tight(rest, z, a + Need(t))
  }

  lemma {:induction false} TightMatches(p: Pattern, z: string, a: nat)
    requires a <= |z| && Tight(p, z, a)
    ensures MatchesSome(p, z, a) && |z| - a == Least(p)
  {
    if p.Then? {
      var b := a + Need(p.head);
      TightMatches(p.tail, z, b);
      assert p.head.Number? ==> SignTo(z, a, a) && AllDigits(z, a, b);
      assert FitsSome(p.head, z, a, b);
    }
  }

  /** Completes pre to a text that p matches tightly from there on. */
  lemma {:induction false} Complete(p: Pattern, pre: string) returns (z: string)
    requires Possible(p) && IsText(pre)
    ensures IsText(z) && pre <= z && Tight(p, z, |pre|)
    decreases p, 0
  {
    match p
    case End => z := pre;
    case Then(Star, rest) => z := Complete(rest, pre);
    case Then(t, rest) =>
      var c :| IsTextByte(c) && OneByte(t, c);
      z := CompleteAfter(t, rest, pre, c);
  }

  lemma {:induction false} CompleteAfter(t: Token, rest: Pattern, pre: string, c: char) returns (z: string)
    requires Possible(rest) && IsText(pre) && !t.Star? && IsTextByte(c) && OneByte(t, c)
    ensures IsText(z) && pre + [c] <= z && Tight(Then(t, rest), z, |pre|)
    decreases rest, 1
  {
    z := Complete(rest, pre + [c]);
    assert z[|pre|] == (pre + [c])[|pre|];
  }

  /** The same, with a digit (or white space) first. */
  lemma {:induction false} CompleteFrom(p: Pattern, pre: string, digit: bool) returns (z: string)
    requires Possible(p) && MayStart(p, digit) && IsText(pre)
    ensures IsText(z) && pre <= z && Tight(p, z, |pre|) && |pre| < |z| && OfKind(z[|pre|], digit)
  {
    if p.head.Star? {
      z := CompleteFrom(p.tail, pre, digit);
    } else {
      var c :| IsTextByte(c) && OfKind(c, digit) && OneByte(p.head, c);
      z := CompleteAfter(p.head, p.tail, pre, c);
      assert z[|pre|] == (pre + [c])[|pre|];
    }
  }

  /** A text on which taking the longest piece is wrong: the piece could have been one byte, and
      the next one starts with a byte of the same kind. */
  lemma {:induction false} Unclear(p: Pattern, pre: string) returns (z: string)
    requires Possible(p) && !Clear(p) && IsText(pre)
    ensures IsText(z) && pre <= z && Tight(p, z, |pre|) && !Matches(p, z, |pre|)
  {
    var t, rest, a := p.head, p.tail, |pre|;
    if (t.Number? || t.Span?) && MayStart(rest, t.Number?) {
      var c := if t.Number? then '7' else ' ';
      z := CompleteFrom(rest, pre + [c], t.Number?);
      assert z[a] == (pre + [c])[a];
    } else if t.Star? {
      z := Unclear(rest, pre);
    } else {
      var c :| IsTextByte(c) && OneByte(t, c);
      z := Unclear(rest, pre + [c]);
      assert z[a] == (pre + [c])[a];
    }
    TightMatches(p, z, a);
    NotForced(t, rest, z, a);
  }

  // ---------------------------------------------------------------- the two readings of a pattern

  lemma {:induction false} LeastGrows(g: string, i: nat, run: bool)
    requires i <= |g|
    ensures Least(Parse(g, i, false, false)) <= Least(Parse(g, i, run, true))
    decreases |g| - i
  {
    if i < |g| {
      var c := g[i];
      if c == '*' {
        LeastGrows(g, i + 1, true);
      } else if c == '?' {
        LeastGrows(g, i + 1, run);
      } else if c == '[' {
        if ClassAt(g, i + 1).Listed? { LeastGrows(g, ClassAt(g, i + 1).next, false); }
      } else if IsSpace(c) {
        LeastGrows(g, SpaceEnd(g, i + 1), false);
        assert i + 1 < |g| && IsSpace(g[i + 1]) ==> SpaceEnd(g, i + 1) == SpaceEnd(g, i + 2);
      } else {
        LeastGrows(g, i + 1, false);
      }
    }
  }

  /** If the documentation allows no text at all, neither does the code. */
  lemma {:induction false} Impossible(g: string, i: nat, run: bool)
    requires i <= |g| && !Possible(Parse(g, i, false, false))
    ensures !Possible(Parse(g, i, run, true))
    decreases |g| - i
  {
    var c := g[i];
    if c == '*' {
      Impossible(g, i + 1, true);
    } else if c == '?' {
      assert IsTextByte('x') && OneByte(Any, 'x');
      Impossible(g, i + 1, run);
    } else if c == '[' {
      if ClassAt(g, i + 1).Listed? && !Possible(Parse(g, ClassAt(g, i + 1).next, false, false)) {
        Impossible(g, ClassAt(g, i + 1).next, false);
      }
    } else if IsSpace(c) {
      assert IsTextByte(' ') && OneByte(Span, ' ');
      Impossible(g, SpaceEnd(g, i + 1), false);
      assert i + 1 < |g| && IsSpace(g[i + 1]) ==> SpaceEnd(g, i + 1) == SpaceEnd(g, i + 2);
    } else {
      assert c == '#' ==> IsTextByte('7') && OneByte(Number, '7');
      if !Possible(Parse(g, i + 1, false, false)) { Impossible(g, i + 1, false); }
    }
  }

  lemma {:induction false} MatchedIsPossible(p: Pattern, z: string, a: nat)
    requires a <= |z| && IsText(z) && MatchesSome(p, z, a)
    ensures Possible(p)
  {
    if p.Then? {
      var b :| a <= b <= |z| && FitsSome(p.head, z, a, b) && MatchesSome(p.tail, z, b);
      MatchedIsPossible(p.tail, z, b);
      if p.head.Number? {
        assert IsTextByte('7') && OneByte(Number, '7');
      } else if !p.head.Star? {
        assert IsTextByte(z[a]) && OneByte(p.head, z[a]);
      }
    }
  }

  /** A text on which taking # or white space literally is wrong. */
  lemma TakenLiterally(g: string, i: nat, pre: string) returns (z: string)
    requires i < |g| && (IsSpace(g[i]) || g[i] == '#') && IsText(pre) && Possible(Parse(g, i, false, false))
    ensures IsText(z) && pre <= z && Tight(Parse(g, i, false, false), z, |pre|)
    ensures !Matches(Parse(g, i, true, true), z, |pre|)
  {
    var p, q, a := Parse(g, i, false, false), Parse(g, i, true, true), |pre|;
    var b := if g[i] == '#' then '7' else if g[i] == ' ' then '\t' else ' ';
    z := Complete(p.tail, pre + [b]);
    assert z[a] == (pre + [b])[a];
    TightMatches(p, z, a);
    LeastGrows(g, i, true);
    NotForced(q.head, q.tail, z, a);
  }

  /** The same, wherever in the pattern it happens. */
  lemma {:induction false} NotPlain(g: string, i: nat, run: bool, pre: string) returns (z: string)
    requires i <= |g| && IsText(pre)
    requires Possible(Parse(g, i, false, false)) && !StarsPlain(Parse(g, i, false, false), run)
    ensures IsText(z) && pre <= z && Tight(Parse(g, i, false, false), z, |pre|)
    ensures !Matches(Parse(g, i, run, true), z, |pre|)
    decreases |g| - i
  {
    var p, q, a, c := Parse(g, i, false, false), Parse(g, i, run, true), |pre|, g[i];
    if run && (IsSpace(c) || c == '#') {
      z := TakenLiterally(g, i, pre);
    } else {
      if c == '*' {
        z := NotPlain(g, i + 1, true, pre);
      } else {
        var b :| IsTextByte(b) && OneByte(p.head, b);
        var next := if c == '[' then ClassAt(g, i + 1).next else if IsSpace(c) then SpaceEnd(g, i + 1) else i + 1;
        z := NotPlain(g, next, c == '?' && run, pre + [b]);
        assert z[a] == (pre + [b])[a];
      }
      TightMatches(p, z, a);
      LeastGrows(g, i, run);
      NotForced(q.head, q.tail, z, a);
    }
  }

  // ---------------------------------------------------------------- when code and documentation agree

  /** The pattern can match nothing; or no star run comes right before a # or white space, and no
      number or span before something that could take a byte of it. */
  ghost predicate Conforms(g: string) {
    var p := DocumentedPattern(g);
    Possible(p) ==> StarsPlain(p, false) && Clear(p)
  }

  lemma Agree(g: string, z: string)
    requires Conforms(g) && IsText(z)
    ensures Matches(CodePattern(g), z, 0) <==> Documented(g, z)
  {
    var p := DocumentedPattern(g);
    if Possible(p) {
      PlainReading(g, 0, false);
      if Matches(p, z, 0) { MatchesIsSome(p, z, 0); }
      if MatchesSome(p, z, 0) { ClearIsLongest(p, z, 0); }
    } else {
      Impossible(g, 0, false);
      if MatchesSome(p, z, 0) { MatchedIsPossible(p, z, 0); }
      if Matches(CodePattern(g), z, 0) {
        MatchesIsSome(CodePattern(g), z, 0);
        MatchedIsPossible(CodePattern(g), z, 0);
      }
    }
  }

  /** A text that the documentation matches and the code does not. */
  lemma Disagree(g: string) returns (z: string)
    requires !Conforms(g)
    ensures IsText(z) && Documented(g, z) && !Matches(CodePattern(g), z, 0)
  {
    var p := DocumentedPattern(g);
    if StarsPlain(p, false) {
      PlainReading(g, 0, false);
      z := Unclear(p, "");
    } else {
      z := NotPlain(g, 0, false, "");
    }
    TightMatches(p, z, 0);
  }

  /** The matcher does what its documentation says on every text exactly when its pattern conforms. */
  lemma DocumentedExactly(g: string)
    ensures Conforms(g) <==> forall z :: IsText(z) ==> (Matches(CodePattern(g), z, 0) <==> Documented(g, z))
  {
    if Conforms(g) {
      forall z | IsText(z) ensures Matches(CodePattern(g), z, 0) <==> Documented(g, z) { Agree(g, z); }
    } else {
      var z := Disagree(g);
      assert IsText(z);
    }
  }

  method DocumentedGlob(g: string, z: string) returns (r: bool)
    requires NulFree(g) && IsText(z) && Conforms(g)
    ensures r <==> Documented(g, z)
  {
    Agree(g, z);
    r := TestcaseGlob(g, 0, z, 0);
  }

  /** The smallest patterns that break each half of the condition: *# does not match 7 ... */
  lemma StarNumberFails()
    ensures Documented("*#", "7") && !Matches(CodePattern("*#"), "7", 0)
  {
    var p := DocumentedPattern("*#");
    assert Parse("*#", 2, false, false) == End && Parse("*#", 2, false, true) == End;
    assert Parse("*#", 1, false, false) == Then(Number, End) && Parse("*#", 1, true, true) == Then(Literal('#'), End);
    assert Tight(Then(Number, End), "7", 0) && Tight(p, "7", 0);
    TightMatches(p, "7", 0);
    NotForced(Literal('#'), End, "7", 0);
    NotForced(Star, Then(Literal('#'), End), "7", 0);
  }

  /** ... and #5 does not match 15. */
  lemma NumberDigitFails()
    ensures Documented("#5", "15") && !Matches(CodePattern("#5"), "15", 0)
  {
    var five := Then(Literal('5'), End);
    assert Parse("#5", 2, false, false) == End && Parse("#5", 2, false, true) == End;
    assert Parse("#5", 1, false, false) == five && Parse("#5", 1, false, true) == five;
    assert Tight(five, "15", 1) && Tight(Then(Number, five), "15", 0);
    TightMatches(Then(Number, five), "15", 0);
    NotForced(Number, five, "15", 0);
  }
}
