/** MODE_Pretty: the in-place pass that tidies white space in a schema statement, and the pass that
    breaks it into lines. */
module Pretty {
  import opened Wrappers
  import opened CString

  predicate IsParen(c: char) {
    c == '(' || c == ')'
  }

  /** s without its white space. */
  function Strip(s: string): string {
    if s == "" then "" else (if IsSpace(s[0]) then "" else [s[0]]) + Strip(s[1..])
  }

  lemma {:induction false} StripAppend(s: string, t: string)
    ensures Strip(s + t) == Strip(s) + Strip(t)
  {
    if s == "" {
      assert s + t == t;
    } else {
      assert (s + t)[1..] == s[1..] + t;
      StripAppend(s[1..], t);
    }
  }

  lemma StripOne(c: char)
    ensures Strip([c]) == if IsSpace(c) then "" else [c]
  {
    assert [c][1..] == "";
  }

  // ---------------------------------------------------------------- the first pass

  /** What the first pass keeps of one more byte. */
  function Squeeze(out: string, c: char): string {
    if IsSpace(c) then
      if out == "" || IsSpace(out[|out| - 1]) || out[|out| - 1] == '(' then out else out + [c]
    else if IsParen(c) && out != "" && IsSpace(out[|out| - 1]) then out[..|out| - 1] + [c]
    else out + [c]
  }

  function SqueezeAll(out: string, s: string): string
    decreases |s|
  {
    if s == "" then out else SqueezeAll(Squeeze(out, s[0]), s[1..])
  }

  function TrimEnd(s: string): string {
    if s != "" && IsSpace(s[|s| - 1]) then TrimEnd(s[..|s| - 1]) else s
  }

  function Tidied(s: string): string {
    TrimEnd(SqueezeAll("", s))
  }

  /** No leading white space, no two in a row, none after an opening parenthesis, none before
      either. */
  predicate Neat(t: string) {
    && (t != "" ==> !IsSpace(t[0]))
    && (forall i :: 0 <= i < |t| - 1 && IsSpace(t[i]) ==> !IsSpace(t[i + 1]) && !IsParen(t[i + 1]))
    && (forall i :: 0 <= i < |t| - 1 && t[i] == '(' ==> !IsSpace(t[i + 1]))
  }

  predicate Tidy(t: string) {
    Neat(t) && (t != "" ==> !IsSpace(t[|t| - 1]))
  }

  lemma SqueezeNeat(out: string, c: char)
    requires Neat(out)
    ensures Neat(Squeeze(out, c))
  {
  }

  lemma StripLast(s: string)
    requires s != ""
    ensures var last := |s| - 1; Strip(s) == Strip(s[..last]) + (if IsSpace(s[last]) then "" else [s[last]])
  {
    var last := |s| - 1;
    assert s == s[..last] + [s[last]];
    StripAppend(s[..last], [s[last]]);
    StripOne(s[last]);
  }

  lemma SqueezeStrips(out: string, c: char)
    ensures Strip(Squeeze(out, c)) == Strip(out) + Strip([c])
  {
    StripOne(c);
    StripAppend(out, [c]);
    if out != "" {
      StripLast(out);
      StripAppend(out[..|out| - 1], [c]);
    }
  }

  lemma {:induction false} SqueezeAllNeat(out: string, s: string)
    requires Neat(out)
    ensures Neat(SqueezeAll(out, s))
    decreases |s|
  {
    if s != "" {
      SqueezeNeat(out, s[0]);
      SqueezeAllNeat(Squeeze(out, s[0]), s[1..]);
    }
  }

  lemma StripFirst(s: string)
    requires s != ""
    ensures Strip(s) == Strip([s[0]]) + Strip(s[1..])
  {
    assert s == [s[0]] + s[1..];
    StripAppend([s[0]], s[1..]);
  }

  lemma {:induction false} SqueezeAllStrips(out: string, s: string)
    ensures Strip(SqueezeAll(out, s)) == Strip(out) + Strip(s)
    decreases |s|
  {
    if s != "" {
      var rest := s[1..];
      SqueezeStrips(out, s[0]);
      SqueezeAllStrips(Squeeze(out, s[0]), rest);
      StripFirst(s);
      Regroup(Strip(out), Strip([s[0]]), Strip(rest));
    }
  }

  lemma {:induction false} TrimEndTidy(t: string)
    requires Neat(t)
    ensures Tidy(TrimEnd(t)) && Strip(TrimEnd(t)) == Strip(t)
  {
    if t != "" && IsSpace(t[|t| - 1]) {
      StripLast(t);
      TrimEndTidy(t[..|t| - 1]);
    }
  }

  /** The first pass leaves a tidy statement and takes away nothing but white space. */
  lemma TidiedIsTidy(s: string)
    ensures Tidy(Tidied(s)) && Strip(Tidied(s)) == Strip(s)
  {
    SqueezeAllNeat("", s);
    SqueezeAllStrips("", s);
    TrimEndTidy(SqueezeAll("", s));
  }

  lemma {:induction false} SqueezeNothing(out: string, s: string)
    requires Neat(out + s)
    ensures SqueezeAll(out, s) == out + s
    decreases |s|
  {
    if s == "" {
      assert out + s == out;
    } else {
      var t := out + s;
      assert t[|out|] == s[0] && (out != "" ==> t[|out| - 1] == out[|out| - 1]);
      assert Squeeze(out, s[0]) == out + [s[0]];
      assert out + [s[0]] + s[1..] == t;
      SqueezeNothing(out + [s[0]], s[1..]);
    }
  }

  /** A tidy statement is left as it is, so the first pass is idempotent. */
  lemma TidiedAgain(s: string)
    ensures Tidied(Tidied(s)) == Tidied(s)
  {
    TidiedIsTidy(s);
    assert "" + Tidied(s) == Tidied(s);
    SqueezeNothing("", Tidied(s));
  }

  lemma {:induction false} SqueezeAppend(out: string, x: string, y: string)
    ensures SqueezeAll(out, x + y) == SqueezeAll(SqueezeAll(out, x), y)
    decreases |x|
  {
    if x == "" {
      assert x + y == y;
    } else {
      assert (x + y)[1..] == x[1..] + y;
      SqueezeAppend(Squeeze(out, x[0]), x[1..], y);
    }
  }

  predicate IsWord(w: string) {
    w != "" && forall k :: 0 <= k < |w| ==> !IsSpace(w[k])
  }

  predicate IsGap(gap: string) {
    gap != "" && forall k :: 0 <= k < |gap| ==> IsSpace(gap[k])
  }

  /** Of white space between two words the first byte stays, but nothing after an opening parenthesis
      or before either. */
  function Between(before: string, gap: string, w: string): string
    requires IsWord(before) && IsGap(gap) && IsWord(w)
  {
    if before[|before| - 1] == '(' || IsParen(w[0]) then "" else [gap[0]]
  }

  lemma {:induction false} SqueezeGap(out: string, gap: string)
    requires out != "" && forall k :: 0 <= k < |gap| ==> IsSpace(gap[k])
    requires IsSpace(out[|out| - 1]) || out[|out| - 1] == '('
    ensures SqueezeAll(out, gap) == out
    decreases |gap|
  {
    if gap != "" { SqueezeGap(out, gap[1..]); }
  }

  lemma {:induction false} SqueezeWord(out: string, w: string)
    requires (out == "" || !IsSpace(out[|out| - 1])) && forall k :: 0 <= k < |w| ==> !IsSpace(w[k])
    ensures SqueezeAll(out, w) == out + w
    decreases |w|
  {
    if w == "" {
      assert out + w == out;
    } else {
      SqueezeWord(out + [w[0]], w[1..]);
      assert out + [w[0]] + w[1..] == out + w;
    }
  }

  /** White space, and then the first byte of the next word. */
  lemma SqueezeBetween(front: string, before: string, gap: string, w: string)
    requires IsWord(before) && IsGap(gap) && IsWord(w)
    ensures SqueezeAll(front + before, gap + w) == front + before + Between(before, gap, w) + w
  {
    var out := front + before;
    assert out[|out| - 1] == before[|before| - 1];
    SqueezeAppend(out, gap, w);
    if before[|before| - 1] == '(' {
      SqueezeGap(out, gap);
      SqueezeWord(out, w);
      assert out + "" == out;
    } else {
      var spaced := out + [gap[0]];
      SqueezeGap(spaced, gap[1..]);
      assert SqueezeAll(out, gap) == spaced;
      var next := out + Between(before, gap, w) + [w[0]];
      assert Squeeze(spaced, w[0]) == next by {
        assert spaced[..|spaced| - 1] == out && out + "" == out;
      }
      SqueezeWord(next, w[1..]);
      assert [w[0]] + w[1..] == w;
      Regroup(out + Between(before, gap, w), [w[0]], w[1..]);
    }
  }

  /** A word and the white space before it. */
  datatype Spaced = Spaced(gap: string, word: string)

  predicate AllSpaced(words: seq<Spaced>) {
    forall i :: 0 <= i < |words| ==> IsGap(words[i].gap) && IsWord(words[i].word)
  }

  function SpacedText(words: seq<Spaced>): string {
    if words == [] then "" else words[0].gap + words[0].word + SpacedText(words[1..])
  }

  function TidyText(before: string, words: seq<Spaced>): string
    requires IsWord(before) && AllSpaced(words)
    decreases |words|
  {
    if words == [] then ""
    else Between(before, words[0].gap, words[0].word) + words[0].word + TidyText(words[0].word, words[1..])
  }

  lemma {:induction false} SqueezeSpaced(front: string, before: string, words: seq<Spaced>)
    requires IsWord(before) && AllSpaced(words)
    ensures SqueezeAll(front + before, SpacedText(words)) == front + before + TidyText(before, words)
    decreases |words|
  {
    if words != [] {
      var gap, w, rest := words[0].gap, words[0].word, SpacedText(words[1..]);
      SqueezeAppend(front + before, gap + w, rest);
      SqueezeBetween(front, before, gap, w);
      SqueezeSpaced(front + before + Between(before, gap, w), w, words[1..]);
      Regroup(front + before, Between(before, gap, w), w);
      Regroup(front + before, Between(before, gap, w) + w, TidyText(w, words[1..]));
    }
  }

  lemma TidyEnd(t: string, trail: string)
    requires t != "" && !IsSpace(t[|t| - 1]) && (trail == "" || IsGap(trail))
    ensures TrimEnd(SqueezeAll(t, trail)) == t
  {
    if trail != "" {
      if t[|t| - 1] == '(' {
        SqueezeGap(t, trail);
      } else {
        SqueezeGap(t + [trail[0]], trail[1..]);
        assert (t + [trail[0]])[..|t|] == t;
      }
    }
  }

  lemma {:induction false} TidyLast(front: string, before: string, words: seq<Spaced>)
    requires IsWord(before) && AllSpaced(words)
    ensures var t := front + before + TidyText(before, words); t != "" && !IsSpace(t[|t| - 1])
    decreases |words|
  {
    if words != [] {
      var between, w := Between(before, words[0].gap, words[0].word), words[0].word;
      TidyLast(front + before + between, w, words[1..]);
      Regroup(front + before, between, w);
      Regroup(front + before, between + w, TidyText(w, words[1..]));
    }
  }

  /** The first pass keeps every word, and between two of them exactly one byte of the white space there
      was, or none beside a parenthesis as above; white space at either end is dropped. */
  lemma TidiedWords(lead: string, first: string, words: seq<Spaced>, trail: string)
    requires (lead == "" || IsGap(lead)) && IsWord(first) && AllSpaced(words) && (trail == "" || IsGap(trail))
    ensures Tidied(lead + (first + (SpacedText(words) + trail))) == first + TidyText(first, words)
  {
    var body := first + (SpacedText(words) + trail);
    SqueezeLeading(lead + body, |lead|);
    assert (lead + body)[|lead|..] == body;
    SqueezeAppend("", first, SpacedText(words) + trail);
    SqueezeWord("", first);
    assert "" + first == first;
    SqueezeAppend(first, SpacedText(words), trail);
    SqueezeSpaced("", first, words);
    TidyLast("", first, words);
    TidyEnd(first + TidyText(first, words), trail);
  }

  lemma {:induction false} SqueezeLeading(s: string, n: nat)
    requires n <= |s| && forall k :: 0 <= k < n ==> IsSpace(s[k])
    ensures SqueezeAll("", s) == SqueezeAll("", s[n..])
  {
    if n > 0 {
      assert s[1..][n - 1..] == s[n..];
      SqueezeLeading(s[1..], n - 1);
    } else {
      assert s[n..] == s;
    }
  }

  /** Takes in the byte at i, where j bytes have been kept. */
  method SqueezeInPlace(a: array<char>, i: nat, j: nat) returns (j': nat)
    requires j <= i < a.Length && (j == 0 ==> !IsSpace(a[i]))
    modifies a
    ensures j' <= i + 1 && (j' == 0 ==> j == 0 && IsSpace(old(a[i]))) && a[..j'] == Squeeze(old(a[..j]), old(a[i]))
    ensures forall k :: i < k < a.Length ==> a[k] == old(a[k])
  {
    var c := a[i];
    j' := j;
    if IsSpace(c) {
      if IsSpace(a[j - 1]) || a[j - 1] == '(' { return; }
    } else if IsParen(c) && j > 0 && IsSpace(a[j - 1]) {
      j' := j - 1;
    }
    a[j'] := c;
    j' := j' + 1;
  }

  method SkipLeading(a: array<char>, ghost s: string) returns (i: nat)
    requires |s| < a.Length && a[..|s|] == s && a[|s|] == NUL
    ensures i <= |s| && !IsSpace(a[i]) && SqueezeAll("", s) == SqueezeAll("", s[i..])
  {
    i := 0;
    while IsSpace(a[i])
      invariant 0 <= i <= |s| && forall k :: 0 <= k < i ==> IsSpace(s[k])
      decreases |s| - i
    {
      assert a[i] == s[i];
      i := i + 1;
    }
    SqueezeLeading(s, i);
  }

  lemma SqueezeFrom(out: string, s: string, i: nat)
    requires i < |s|
    ensures SqueezeAll(out, s[i..]) == SqueezeAll(Squeeze(out, s[i]), s[i + 1..])
  {
    assert s[i..][1..] == s[i + 1..];
  }

  /** Takes in byte i of s. */
  method SqueezeNext(a: array<char>, i: nat, j: nat, ghost s: string) returns (j': nat)
    requires j <= i < |s| && i < a.Length && a[i] == s[i] && (j == 0 ==> !IsSpace(s[i]))
    modifies a
    ensures 0 < j' <= i + 1 && SqueezeAll(a[..j'], s[i + 1..]) == SqueezeAll(old(a[..j]), s[i..])
    ensures forall k :: i < k < a.Length ==> a[k] == old(a[k])
  {
    SqueezeFrom(a[..j], s, i);
    j' := SqueezeInPlace(a, i, j);
  }

  /** The bytes of s from i on are still in the buffer, with their terminator. */
  predicate Ahead(m: string, s: string, i: nat) {
    NulFree(s) && i <= |s| < |m| && forall k :: i <= k <= |s| ==> m[k] == At(s, k)
  }

  /** Takes in the bytes from the first that is not white space; none is the empty string. */
  method SqueezeRest(a: array<char>, first: nat, ghost s: string, ghost none: string) returns (j: nat)
    requires Ahead(a[..], s, first) && !IsSpace(a[first]) && none == ""
    modifies a
    ensures j <= |s| && a[..j] == SqueezeAll(none, s[first..])
  {
    var i := first;
    j := 0;
    ghost var goal := SqueezeAll(none, s[first..]);
    while a[i] != NUL
      invariant 0 <= j <= i <= |s| && (j == 0 ==> !IsSpace(a[i]))
      invariant goal == SqueezeAll(a[..j], s[i..]) && Ahead(a[..], s, i)
      decreases |s| - i
    {
      j := SqueezeNext(a, i, j, s);
      i := i + 1;
    }
    assert s[i..] == "";
  }

  /** The first pass, in place: s is the string in a; afterwards its tidied form is. */
  method TidyInPlace(a: array<char>, ghost s: string) returns (j: nat)
    requires NulFree(s) && |s| < a.Length && a[..|s|] == s && a[|s|] == NUL
    modifies a
    ensures j <= |s| && a[..j] == Tidied(s) && a[j] == NUL
  {
    assert forall k :: 0 <= k < |s| ==> a[k] == a[..|s|][k];
    var i := SkipLeading(a, s);
    j := SqueezeRest(a, i, s, "");
    j := TrimInPlace(a, j);
  }

  method TrimInPlace(a: array<char>, n: nat) returns (j: nat)
    requires n < a.Length
    modifies a
    ensures j <= n && a[..j] == TrimEnd(old(a[..n])) && a[j] == NUL
  {
    ghost var whole := a[..n];
    j := n;
    while j > 0 && IsSpace(a[j - 1])
      invariant 0 <= j <= n && TrimEnd(whole) == TrimEnd(a[..j])
    {
      assert a[..j][..j - 1] == a[..j - 1];
      j := j - 1;
    }
    a[j] := NUL;
  }

  // ---------------------------------------------------------------- the second pass

  /** A call of printSchemaLine: the text and what is printed after it. */
  datatype Line = Line(text: string, tail: string)

  /** The variables of the second pass, apart from the buffer. */
  datatype Scan = Scan(cEnd: char, nParen: int, nLine: nat)

  predicate IsQuote(c: char) {
    c == '"' || c == '\'' || c == '`'
  }

  /** Quotes and parentheses. */
  function Track(k: Scan, c: char): Scan {
    if c == k.cEnd then k.(cEnd := NUL)
    else if IsQuote(c) then k.(cEnd := c)
    else if c == '[' then k.(cEnd := ']')
    else if c == '(' then k.(nParen := k.nParen + 1)
    else if c == ')' then k.(nParen := k.nParen - 1)
    else k
  }

  /** The closing parenthesis of the column list starts a line of its own. */
  predicate BreaksBefore(k: Scan, c: char, buffered: nat) {
    c != k.cEnd && c == ')' && k.nLine > 0 && k.nParen == 1 && buffered > 0
  }

  /** The opening parenthesis of the column list, its commas and its line ends finish a line. */
  predicate BreaksAfter(k: Scan, c: char) {
    k.nParen == 1 && (c == '(' || c == ',' || c == '\n')
  }

  /** The lines printed for t from i on, with buf waiting to be printed. */
  function Lines(t: string, i: nat, buf: string, k: Scan): seq<Line>
    requires i <= |t|
    decreases |t| - i, 1
  {
    if i == |t| then [Line(buf, ";\n")]
    else if BreaksBefore(k, t[i], |buf|) then [Line(buf, "\n")] + LinesAfter(t, i, "", k)
    else LinesAfter(t, i, buf, k)
  }

  /** The lines from byte i on, once a line has or has not been finished before it. */
  function LinesAfter(t: string, i: nat, kept: string, k: Scan): seq<Line>
    requires i < |t|
    decreases |t| - i, 0
  {
    var c, buf, k1 := t[i], kept + [t[i]], Track(k, t[i]);
    if BreaksAfter(k1, c) then
      [Line(if c == '\n' then buf[..|buf| - 1] else buf, "\n  ")] +
      Lines(t, SpaceEnd(t, i + 1), "", k1.(nLine := k1.nLine + 1))
    else Lines(t, i + 1, buf, k1)
  }

  const START: Scan := Scan(NUL, 0, 0)

  function Joined(lines: seq<Line>): string {
    if lines == [] then "" else lines[0].text + Joined(lines[1..])
  }

  lemma JoinedFirst(line: Line, rest: seq<Line>)
    ensures Strip(Joined([line] + rest)) == Strip(line.text) + Strip(Joined(rest))
  {
    assert ([line] + rest)[1..] == rest;
    StripAppend(line.text, Joined(rest));
  }

  lemma {:induction false} StripSpaces(s: string, i: nat, e: nat)
    requires i <= e <= |s| && forall k :: i <= k < e ==> IsSpace(s[k])
    ensures Strip(s[i..]) == Strip(s[e..])
    decreases e - i
  {
    if i < e {
      assert s[i..][1..] == s[i + 1..];
      StripSpaces(s, i + 1, e);
    }
  }

  lemma SpaceAfter(t: string, i: nat)
    requires i < |t|
    ensures Strip(t[i..]) == Strip([t[i]]) + Strip(t[SpaceEnd(t, i + 1)..])
  {
    assert t[i..] == [t[i]] + t[i + 1..];
    StripAppend([t[i]], t[i + 1..]);
    StripSpaces(t, i + 1, SpaceEnd(t, i + 1));
  }

  /** The line finished by c holds what was buffered, and c. */
  lemma LineText(kept: string, c: char)
    ensures var buf := kept + [c];
            Strip(if c == '\n' then buf[..|buf| - 1] else buf) == Strip(kept) + Strip([c])
  {
    StripAppend(kept, [c]);
    StripOne(c);
    assert (kept + [c])[..|kept|] == kept;
  }

  /** Breaking a statement into lines loses nothing but white space. */
  lemma {:induction false} LinesLoseNothing(t: string, i: nat, buf: string, k: Scan)
    requires i <= |t|
    ensures Strip(Joined(Lines(t, i, buf, k))) == Strip(buf) + Strip(t[i..])
    decreases |t| - i, 1
  {
    if i == |t| {
      JoinedFirst(Line(buf, ";\n"), []);
      assert [Line(buf, ";\n")] + [] == [Line(buf, ";\n")];
    } else if BreaksBefore(k, t[i], |buf|) {
      LinesAfterLoseNothing(t, i, "", k);
      JoinedFirst(Line(buf, "\n"), LinesAfter(t, i, "", k));
    } else {
      LinesAfterLoseNothing(t, i, buf, k);
    }
  }

  lemma {:induction false} LinesAfterLoseNothing(t: string, i: nat, kept: string, k: Scan)
    requires i < |t|
    ensures Strip(Joined(LinesAfter(t, i, kept, k))) == Strip(kept) + Strip(t[i..])
    decreases |t| - i, 0
  {
    var c, buf, k1 := t[i], kept + [t[i]], Track(k, t[i]);
    if BreaksAfter(k1, c) {
      var k2 := k1.(nLine := k1.nLine + 1);
      var line := Line(if c == '\n' then buf[..|buf| - 1] else buf, "\n  ");
      LinesLoseNothing(t, SpaceEnd(t, i + 1), "", k2);
      LineText(kept, c);
      SpaceAfter(t, i);
      JoinedFirst(line, Lines(t, SpaceEnd(t, i + 1), "", k2));
      Regroup(Strip(kept), Strip([c]), Strip(t[SpaceEnd(t, i + 1)..]));
    } else {
      LinesLoseNothing(t, i + 1, buf, k1);
      StripOver(t, i, kept);
    }
  }

  lemma StripOver(t: string, i: nat, kept: string)
    requires i < |t|
    ensures Strip(kept + [t[i]]) + Strip(t[i + 1..]) == Strip(kept) + Strip(t[i..])
  {
    StripAppend(kept, [t[i]]);
    assert t[i..] == [t[i]] + t[i + 1..];
    StripAppend([t[i]], t[i + 1..]);
    Regroup(Strip(kept), Strip([t[i]]), Strip(t[i + 1..]));
  }

  /** printSchemaLine for the first n bytes of the buffer, which are cut off with a NUL meanwhile. */
  method PrintSchemaLineN(a: array<char>, n: nat, tail: string) returns (line: Line)
    requires n < a.Length && NulFree(a[..n])
    modifies a
    ensures a[..] == old(a[..]) && line == Line(a[..n], tail)
  {
    var c := a[n];
    a[n] := NUL;
    line := Line(CStr(a[..]), tail);
    assert a[..] == a[..n] + [NUL] + a[n + 1..];
    CStrStops(a[..n], a[n + 1..]);
    CStrNulFree(a[..n]);
    a[n] := c;
  }

  /** The buffer holds what is waiting in its first j bytes, and t from i on. */
  predicate Holding(m: string, t: string, i: nat, j: nat) {
    && NulFree(t) && j <= i <= |t| < |m| && NulFree(m[..j])
    && forall k :: i <= k <= |t| ==> m[k] == At(t, k)
  }

  /** Keeps byte i, and finishes the line after it if need be. */
  method BreakAfter(a: array<char>, i: nat, j: nat, k: Scan, ghost t: string)
    returns (lines: seq<Line>, i': nat, j': nat, k': Scan)
    requires Holding(a[..], t, i, j) && i < |t|
    modifies a
    ensures Holding(a[..], t, i', j') && i < i'
    ensures LinesAfter(t, i, old(a[..j]), k) == lines + Lines(t, i', a[..j'], k')
  {
    ghost var kept := a[..j];
    var c := a[i];
    lines, i', j', k' := [], i + 1, j + 1, Track(k, c);
    a[j] := c;
    assert a[..j'] == kept + [c];
    if BreaksAfter(k', c) {
      if c == '\n' { j' := j' - 1; }
      var line := PrintSchemaLineN(a, j', "\n  ");
      assert line.text == if c == '\n' then (kept + [c])[..|kept|] else kept + [c];
      lines, j', k' := [line], 0, k'.(nLine := k'.nLine + 1);
      while IsSpace(a[i'])
        invariant i < i' <= |t| && SpaceEnd(t, i') == SpaceEnd(t, i + 1)
        decreases |t| - i'
      {
        i' := i' + 1;
      }
    }
  }

  /** One byte of the second pass. */
  method BreakByte(a: array<char>, i: nat, j: nat, k: Scan, ghost t: string)
    returns (lines: seq<Line>, i': nat, j': nat, k': Scan)
    requires Holding(a[..], t, i, j) && i < |t|
    modifies a
    ensures Holding(a[..], t, i', j') && i < i'
    ensures Lines(t, i, old(a[..j]), k) == lines + Lines(t, i', a[..j'], k')
  {
    var before := [];
    j' := j;
    if BreaksBefore(k, a[i], j) {
      var line := PrintSchemaLineN(a, j, "\n");
      before, j' := [line], 0;
    }
    var after;
    after, i', j', k' := BreakAfter(a, i, j', k, t);
    lines := before + after;
    Regroup(before, after, Lines(t, i', a[..j'], k'));
  }

  /** The second pass, in place: what it has read makes room for what it keeps. */
  method BreakLines(a: array<char>, ghost t: string) returns (lines: seq<Line>)
    requires Holding(a[..], t, 0, 0)
    modifies a
    ensures lines == Lines(t, 0, "", START)
  {
    lines := [];
    var i, j, k := 0, 0, START;
    ghost var goal := Lines(t, 0, "", START);
    assert a[..0] == "";
    while a[i] != NUL
      invariant Holding(a[..], t, i, j)
      invariant goal == lines + Lines(t, i, a[..j], k)
      decreases |t| - i
    {
      var more;
      ghost var done := lines;
      more, i, j, k := BreakByte(a, i, j, k, t);
      lines := lines + more;
      Regroup(done, more, Lines(t, i, a[..j], k));
    }
    var last := PrintSchemaLineN(a, j, ";\n");
    lines := lines + [last];
  }

  /** MODE_Pretty for a statement that is neither a view nor a trigger.  The texts handed to
      printSchemaLine, put together, are the statement but for white space. */
  method PrettyPrint(a: array<char>, ghost s: string) returns (lines: seq<Line>)
    requires NulFree(s) && |s| < a.Length && a[..|s|] == s && a[|s|] == NUL
    modifies a
    ensures var t := Tidied(s);
            lines == if |t| % 0x4000_0000 >= 79 then Lines(t, 0, "", START) else [Line(t, ";\n")]
    ensures Strip(Joined(lines)) == Strip(s)
  {
    var n := TidyInPlace(a, s);
    ghost var t := Tidied(s);
    TidiedIsTidy(s);
    TidiedNulFree(s);
    assert a[..][..n] == t;
    if n % 0x4000_0000 >= 79 {
      lines := BreakLines(a, t);
      LinesLoseNothing(t, 0, "", START);
      assert t[0..] == t && Strip("") + Strip(t) == Strip(t);
    } else {
      var line := PrintSchemaLineN(a, n, ";\n");
      lines := [line];
      JoinedFirst(line, []);
      assert [line] + [] == [line];
    }
  }

  lemma {:induction false} SqueezeAllNulFree(out: string, s: string)
    requires NulFree(out) && NulFree(s)
    ensures NulFree(SqueezeAll(out, s))
    decreases |s|
  {
    if s != "" { SqueezeAllNulFree(Squeeze(out, s[0]), s[1..]); }
  }

  lemma {:induction false} TrimEndNulFree(s: string)
    requires NulFree(s)
    ensures NulFree(TrimEnd(s))
  {
    if s != "" && IsSpace(s[|s| - 1]) { TrimEndNulFree(s[..|s| - 1]); }
  }

  lemma TidiedNulFree(s: string)
    requires NulFree(s)
    ensures NulFree(Tidied(s))
  {
    SqueezeAllNulFree("", s);
    TrimEndNulFree(SqueezeAll("", s));
  }

  // ---------------------------------------------------------------- where the lines end

  /** How many parentheses are open before byte i, quoted ones included. */
  function Depth(t: string, i: nat): int
    requires i <= |t|
  {
    if i == 0 then 0
    else Depth(t, i - 1) + (if t[i - 1] == '(' then 1 else if t[i - 1] == ')' then -1 else 0)
  }

  /** Just inside the column list: its opening parenthesis, a comma or a line end. */
  predicate Ends(t: string, p: nat)
    requires p < |t|
  {
    (t[p] == '(' || t[p] == ',' || t[p] == '\n') && Depth(t, p + 1) == 1
  }

  /** The parenthesis that closes the column list. */
  predicate Closes(t: string, p: nat)
    requires p < |t|
  {
    t[p] == ')' && Depth(t, p) == 1
  }

  /** From a on no line ends before e, and none starts after a. */
  predicate Unbroken(t: string, a: nat, e: nat, first: bool)
    requires a <= e <= |t|
  {
    forall p :: a <= p < e ==> !Ends(t, p) && (first || p == a || !Closes(t, p))
  }

  /** The lines of t from a on: each goes on to the first place where one ends, or to just before the
      parenthesis that closes the column list, unless it is the first line.  White space behind a line
      that ends is dropped. */
  ghost predicate Laid(t: string, a: nat, first: bool, lines: seq<Line>)
    requires a <= |t|
    decreases |t| - a
  {
    lines != [] && exists e :: a <= e <= |t| && Unbroken(t, a, e, first) && LaidTo(t, a, first, lines, e)
  }

  ghost predicate LaidTo(t: string, a: nat, first: bool, lines: seq<Line>, e: nat)
    requires a <= e <= |t| && lines != []
    decreases |t| - a, 0
  {
    if e == |t| then lines == [Line(t[a..], ";\n")]
    else if Ends(t, e) then
      && lines[0] == Line(if t[e] == '\n' then t[a..e] else t[a..e + 1], "\n  ")
      && Laid(t, SpaceEnd(t, e + 1), false, lines[1..])
    else
      && !first && a < e && Closes(t, e) && lines[0] == Line(t[a..e], "\n")
      && Laid(t, e, false, lines[1..])
  }

  /** The scan has counted the parentheses before byte i, and waits for a quote or nothing. */
  predicate Counted(t: string, i: nat, k: Scan)
    requires i <= |t|
  {
    k.nParen == Depth(t, i) && (k.cEnd == NUL || k.cEnd == ']' || IsQuote(k.cEnd))
  }

  lemma TrackCounts(t: string, i: nat, k: Scan)
    requires i < |t| && Counted(t, i, k)
    ensures Counted(t, i + 1, Track(k, t[i]))
  {
  }

  lemma {:induction false} DepthOverSpace(t: string, i: nat, e: nat)
    requires i <= e <= |t| && AllSpace(t, i, e)
    ensures Depth(t, e) == Depth(t, i)
    decreases e - i
  {
    if i < e { DepthOverSpace(t, i, e - 1); }
  }

  /** A line that ends with byte i, before lines that are laid. */
  lemma EndLaid(t: string, a: nat, i: nat, first: bool, rest: seq<Line>)
    requires a <= i < |t| && Unbroken(t, a, i, first) && Ends(t, i) && Laid(t, SpaceEnd(t, i + 1), false, rest)
    ensures Laid(t, a, first, [Line(if t[i] == '\n' then t[a..i] else t[a..i + 1], "\n  ")] + rest)
  {
    var lines := [Line(if t[i] == '\n' then t[a..i] else t[a..i + 1], "\n  ")] + rest;
    assert lines[1..] == rest;
    assert LaidTo(t, a, first, lines, i);
  }

  lemma {:induction false} LinesLaid(t: string, a: nat, i: nat, buf: string, k: Scan)
    requires a <= i <= |t| && buf == t[a..i] && Counted(t, i, k) && Unbroken(t, a, i, k.nLine == 0)
    ensures Laid(t, a, k.nLine == 0, Lines(t, i, buf, k))
    decreases |t| - i, 1
  {
    var lines := Lines(t, i, buf, k);
    if i == |t| {
      assert t[a..i] == t[a..];
      assert LaidTo(t, a, k.nLine == 0, lines, i);
    } else if BreaksBefore(k, t[i], |buf|) {
      AfterLaid(t, i, i, "", k);
      assert LaidTo(t, a, false, lines, i);
    } else {
      AfterLaid(t, a, i, buf, k);
    }
  }

  lemma {:induction false} AfterLaid(t: string, a: nat, i: nat, kept: string, k: Scan)
    requires a <= i < |t| && kept == t[a..i] && Counted(t, i, k) && Unbroken(t, a, i, k.nLine == 0)
    requires k.nLine == 0 || i == a || !Closes(t, i)
    ensures Laid(t, a, k.nLine == 0, LinesAfter(t, i, kept, k))
    decreases |t| - i, 0
  {
    var k1 := Track(k, t[i]);
    TrackCounts(t, i, k);
    assert kept + [t[i]] == t[a..i + 1];
    if BreaksAfter(k1, t[i]) {
      var next := SpaceEnd(t, i + 1);
      DepthOverSpace(t, i + 1, next);
      LinesLaid(t, next, next, "", k1.(nLine := k1.nLine + 1));
      EndLaid(t, a, i, k.nLine == 0, Lines(t, next, "", k1.(nLine := k1.nLine + 1)));
      assert t[a..i + 1][..i - a] == t[a..i];
    } else {
      LinesLaid(t, a, i + 1, kept + [t[i]], k1);
    }
  }

  /** The lines of the second pass end exactly there.  Quotes make no difference. */
  lemma LineStructure(t: string)
    ensures Laid(t, 0, true, Lines(t, 0, "", START))
  {
    LinesLaid(t, 0, 0, "", START);
  }

  lemma FirstEnd(t: string, a: nat, first: bool, lines: seq<Line>, e: nat, f: nat)
    requires a <= e < f <= |t| && lines != [] && LaidTo(t, a, first, lines, e)
    ensures !Unbroken(t, a, f, first)
  {
    assert Ends(t, e) || (!first && a < e && Closes(t, e));
  }

  /** That says where every line ends and what is in it. */
  lemma {:induction false} LaidOnce(t: string, a: nat, first: bool, x: seq<Line>, y: seq<Line>)
    requires a <= |t| && Laid(t, a, first, x) && Laid(t, a, first, y)
    ensures x == y
    decreases |t| - a
  {
    var e :| a <= e <= |t| && Unbroken(t, a, e, first) && LaidTo(t, a, first, x, e);
    var f :| a <= f <= |t| && Unbroken(t, a, f, first) && LaidTo(t, a, first, y, f);
    if e < f { FirstEnd(t, a, first, x, e, f); }
    if f < e { FirstEnd(t, a, first, y, f, e); }
    if e < |t| {
      LaidOnce(t, if Ends(t, e) then SpaceEnd(t, e + 1) else e, false, x[1..], y[1..]);
      assert x == [x[0]] + x[1..] && y == [y[0]] + y[1..];
    }
  }
}
