/** Strings printed in C notation, and the tokens of a meta-command line: each undoes the other. */
module MetaCommand {
  import opened Wrappers
  import opened CString

  const BACKSLASH: char := '\\'
  const DOUBLE: char := '"'
  const SINGLE: char := '\''

  // ---------------------------------------------------------------- printing

  predicate IsPrint(c: char) {
    32 <= c as int < 127
  }

  function OctalDigit(n: nat): char
    requires n < 8
  {
    ('0' as int + n) as char
  }

  /** How one byte is printed. */
  function Escape(c: char): string
    requires c as int < 256
  {
    if c == BACKSLASH then [c, c]
    else if c == DOUBLE then [BACKSLASH, DOUBLE]
    else if c == '\t' then [BACKSLASH, 't']
    else if c == '\n' then [BACKSLASH, 'n']
    else if c == '\r' then [BACKSLASH, 'r']
    else if !IsPrint(c) then
      [BACKSLASH, OctalDigit(c as int / 64), OctalDigit(c as int / 8 % 8), OctalDigit(c as int % 8)]
    else [c]
  }

  function EscapeAll(z: string): string
    requires Bytes(z)
  {
    if z == "" then "" else Escape(z[0]) + EscapeAll(z[1..])
  }

  function CText(z: string): string
    requires Bytes(z)
  {
    [DOUBLE] + EscapeAll(z) + [DOUBLE]
  }

  lemma EscapeNext(z: string, i: nat)
    requires Bytes(z) && i < |z|
    ensures EscapeAll(z[i..]) + [DOUBLE] == Escape(z[i]) + (EscapeAll(z[i + 1..]) + [DOUBLE])
  {
    assert z[i..][1..] == z[i + 1..];
  }

  method OutputByte(out: string, c: char) returns (out': string)
    requires c as int < 256
    ensures out' == out + Escape(c)
  {
    if c == BACKSLASH {
      out' := out + [c] + [c];
    } else if c == DOUBLE {
      out' := out + [BACKSLASH] + [DOUBLE];
    } else if c == '\t' {
      out' := out + [BACKSLASH] + ['t'];
    } else if c == '\n' {
      out' := out + [BACKSLASH] + ['n'];
    } else if c == '\r' {
      out' := out + [BACKSLASH] + ['r'];
    } else if !IsPrint(c) {
      out' := out + [BACKSLASH, OctalDigit(c as int / 64), OctalDigit(c as int / 8 % 8), OctalDigit(c as int % 8)];
    } else {
      out' := out + [c];
    }
  }

  method OutputCString(out: string, z: string) returns (out': string)
    requires Bytes(z)
    ensures out' == out + CText(z)
  {
    out' := out + [DOUBLE];
    ghost var goal := out + CText(z);
    assert z[0..] == z;
    Regroup(out, [DOUBLE], EscapeAll(z) + [DOUBLE]);
    for i := 0 to |z|
      invariant out' + (EscapeAll(z[i..]) + [DOUBLE]) == goal
    {
      ghost var before := out';
      EscapeNext(z, i);
      out' := OutputByte(out', z[i]);
      Regroup(before, Escape(z[i]), EscapeAll(z[i + 1..]) + [DOUBLE]);
    }
    out' := out' + [DOUBLE];
  }

  // ---------------------------------------------------------------- dequoting

  predicate IsOctal(c: char) {
    '0' <= c <= '7'
  }

  function OctalValue(c: char): nat
    requires IsOctal(c)
  {
    c as int - '0' as int
  }

  /** The byte a backslash sequence at the start of s stands for, and its length.  The value of
      three octal digits is cut to a byte. */
  function Unescape(s: string): (r: (char, nat))
    requires |s| > 1
    ensures 2 <= r.1 <= |s|
  {
    var c := s[1];
    if c == 'a' then (7 as char, 2)
    else if c == 'b' then (8 as char, 2)
    else if c == 't' then ('\t', 2)
    else if c == 'n' then ('\n', 2)
    else if c == 'v' then (11 as char, 2)
    else if c == 'f' then (12 as char, 2)
    else if c == 'r' then ('\r', 2)
    else if IsOctal(c) then
      if |s| > 2 && IsOctal(s[2]) then
        if |s| > 3 && IsOctal(s[3]) then
          (((OctalValue(c) * 64 + OctalValue(s[2]) * 8 + OctalValue(s[3])) % 256) as char, 4)
        else ((OctalValue(c) * 8 + OctalValue(s[2])) as char, 3)
      else (OctalValue(c) as char, 2)
    else (c, 2)
  }

  /** The first byte s stands for, and how much of s that takes. */
  function First(s: string): (r: (char, nat))
    requires s != ""
    ensures 1 <= r.1 <= |s|
  {
    if s[0] == BACKSLASH && |s| > 1 then Unescape(s) else (s[0], 1)
  }

  /** C-language dequoting, read off the string. */
  function Decode(s: string): string {
    if s == "" then "" else [First(s).0] + Decode(s[First(s).1..])
  }

  /** The C string that starts at p in memory m. */
  predicate StringAt(m: string, p: nat, s: string) {
    NulFree(s) && Holds(m, p, s + [NUL])
  }

  lemma TailOfTail(s: string, n: nat)
    requires 0 < n <= |s|
    ensures s[1..][n - 1..] == s[n..] && s[..n] == [s[0]] + s[1..][..n - 1]
  {
  }

  lemma {:induction false} DecodePlain(s: string, n: nat)
    requires n <= |s| && forall k :: 0 <= k < n ==> s[k] != BACKSLASH
    ensures Decode(s) == s[..n] + Decode(s[n..])
  {
    if n > 0 {
      var t := s[1..];
      DecodePlain(t, n - 1);
      TailOfTail(s, n);
      Regroup([s[0]], t[..n - 1], Decode(s[n..]));
    } else {
      assert s[n..] == s;
    }
  }

  /** Memory at i is the bytes of s, and then a NUL. */
  lemma StringBytes(m: string, i: nat, s: string)
    requires StringAt(m, i, s)
    ensures i + |s| < |m| && forall k :: i <= k <= i + |s| ==> m[k] == At(s, k - i)
  {
    forall k | i <= k <= i + |s| ensures m[k] == (s + [NUL])[k - i] {
      HoldsAt(m, i, s + [NUL], k - i);
    }
  }

  /** Reads one byte or one backslash sequence at i. */
  method DecodeOne(a: array<char>, i: nat, ghost s: string) returns (c: char, next: nat)
    requires StringAt(a[..], i, s) && s != ""
    ensures i < next <= i + |s| && (c, next - i) == First(s)
  {
    StringBytes(a[..], i, s);
    next := i;
    c := a[next];
    assert a[i + 1] == At(s, 1);
    if c == BACKSLASH && a[next + 1] != NUL {
      next := next + 1;
      c := a[next];
      if c == 'a' {
        c := 7 as char;
      } else if c == 'b' {
        c := 8 as char;
      } else if c == 't' {
        c := '\t';
      } else if c == 'n' {
        c := '\n';
      } else if c == 'v' {
        c := 11 as char;
      } else if c == 'f' {
        c := 12 as char;
      } else if c == 'r' {
        c := '\r';
      } else if c == DOUBLE {
        c := DOUBLE;
      } else if c == SINGLE {
        c := SINGLE;
      } else if c == BACKSLASH {
        c := BACKSLASH;
      } else if IsOctal(c) {
        c, next := DecodeOctal(a, i, s);
      }
    }
    next := next + 1;
  }

  /** Reads up to three octal digits after the backslash at i, and stops at the last. */
  method DecodeOctal(a: array<char>, i: nat, ghost s: string) returns (c: char, next: nat)
    requires |s| > 1 && i + |s| < a.Length && IsOctal(s[1])
    requires forall k :: i <= k <= i + |s| ==> a[k] == At(s, k - i)
    ensures i < next < i + |s| && (c, next + 1 - i) == Unescape(s)
  {
    next := i + 1;
    assert a[i + 1] == s[1];
    var v := OctalValue(a[next]);
    assert a[i + 2] == At(s, 2);
    if IsOctal(a[next + 1]) {
      next := next + 1;
      v := v * 8 + OctalValue(a[next]);
      assert a[i + 3] == At(s, 3);
      if IsOctal(a[next + 1]) {
        next := next + 1;
        v := (v * 8 + OctalValue(a[next])) % 256;
      }
    }
    c := v as char;
  }

  /** After dequoting, the string at p is d, and nothing outside the old string has changed. */
  twostate predicate Resolved(a: array<char>, p: nat, s: string, d: string)
    reads a
  {
    && p + |s| < a.Length && |d| <= |s|
    && a[p..p + |d|] == d && a[p + |d|] == NUL
    && (forall k :: 0 <= k < p || p + |s| <= k < a.Length ==> a[k] == old(a[k]))
  }

  /** The suffix of a C string is a C string. */
  lemma StringTail(m: string, p: nat, s: string, n: nat)
    requires StringAt(m, p, s) && n <= |s|
    ensures StringAt(m, p + n, s[n..])
  {
    assert s + [NUL] == s[..n] + (s[n..] + [NUL]);
    HoldsParts(m, p, s[..n], s[n..] + [NUL]);
  }

  lemma SameFrom(m: string, m': string, i: nat, s: string)
    requires StringAt(m, i, s) && |m'| == |m| && forall k :: i <= k < |m| ==> m'[k] == m[k]
    ensures StringAt(m', i, s)
  {
    assert m'[i..i + |s + [NUL]|] == m[i..i + |s + [NUL]|];
  }

  /** The first backslash, or the end. */
  method SkipPlain(a: array<char>, p: nat, ghost s: string) returns (z: nat)
    requires StringAt(a[..], p, s)
    ensures p <= z <= p + |s| && Decode(s) == a[p..z] + Decode(s[z - p..])
  {
    z := p;
    HoldsAt(a[..], p, s + [NUL], 0);
    while a[z] != NUL && a[z] != BACKSLASH
      invariant p <= z <= p + |s| && a[z] == (s + [NUL])[z - p]
      invariant forall k :: 0 <= k < z - p ==> s[k] != BACKSLASH && a[p + k] == s[k]
      decreases p + |s| - z
    {
      z := z + 1;
      HoldsAt(a[..], p, s + [NUL], z - p);
    }
    DecodePlain(s, z - p);
    assert a[p..z] == s[..z - p];
  }

  /** Reads one byte at i, where memory is still as it was in m, and writes it at j. */
  method DecodeStep(a: array<char>, ghost z: nat, i: nat, j: nat, ghost m: string, ghost rest: string)
    returns (next: nat, ghost c: char)
    requires z <= j <= i && StringAt(m, i, rest) && rest != ""
    requires |m| == a.Length && forall k :: i <= k < a.Length ==> a[k] == m[k]
    modifies a
    ensures i < next <= i + |rest| && (c, next - i) == First(rest) && StringAt(m, next, rest[next - i..])
    ensures a[z..j + 1] == old(a[z..j]) + [c]
    ensures forall k :: 0 <= k < z || next <= k < a.Length ==> a[k] == old(a[k])
    ensures m[next] == NUL <==> rest[next - i..] == ""
  {
    SameFrom(m, a[..], i, rest);
    ghost var before := a[z..j];
    var b;
    b, next := DecodeOne(a, i, rest);
    StringTail(m, i, rest, next - i);
    HoldsAt(m, next, rest[next - i..] + [NUL], 0);
    a[j] := b;
    c := b;
    assert a[z..j + 1] == before + [c];
  }

  /** Dequotes from z on.  The write index j never passes the read index i. */
  method DecodeFrom(a: array<char>, z: nat, ghost s: string)
    requires StringAt(a[..], z, s)
    modifies a
    ensures Resolved(a, z, s, Decode(s))
  {
    ghost var m, rest, out := a[..], s, "";
    var i, j := z, z;
    HoldsAt(m, i, rest + [NUL], 0);
    while a[i] != NUL
      invariant z <= j <= i == z + |s| - |rest| && StringAt(m, i, rest)
      invariant a[z..j] == out && Decode(s) == out + Decode(rest)
      invariant forall k :: 0 <= k < z || i <= k < a.Length ==> a[k] == m[k]
      invariant m[i] == NUL <==> rest == ""
      decreases |rest|
    {
      var next;
      ghost var c;
      next, c := DecodeStep(a, z, i, j, m, rest);
      rest := rest[next - i..];
      Regroup(out, [c], Decode(rest));
      out := out + [c];
      i := next;
      j := j + 1;
    }
    if j < i {
      a[j] := NUL;
    }
    assert a[z..j] == out;
  }

  /** Dequotes the string at p in place. */
  method ResolveBackslashes(a: array<char>, p: nat, ghost s: string)
    requires StringAt(a[..], p, s)
    modifies a
    ensures Resolved(a, p, s, Decode(s))
  {
    var z := SkipPlain(a, p, s);
    ghost var plain, tail := a[p..z], s[z - p..];
    DecodeTail(a, p, z, s, plain, tail);
    Joins(a[..], p, z, plain, Decode(tail));
  }

  /** The same from the first backslash on; what was before it stays. */
  method DecodeTail(a: array<char>, p: nat, z: nat, ghost s: string, ghost plain: string, ghost tail: string)
    requires StringAt(a[..], p, s) && p <= z <= p + |s| && a[p..z] == plain && tail == s[z - p..]
    modifies a
    ensures Resolved(a, z, tail, Decode(tail)) && a[p..z] == plain
  {
    StringTail(a[..], p, s, z - p);
    DecodeFrom(a, z, tail);
  }

  lemma Joins(m: string, p: nat, z: nat, u: string, v: string)
    requires p <= z && z + |v| <= |m| && m[p..z] == u && m[z..z + |v|] == v
    ensures m[p..p + |u + v|] == u + v
  {
  }

  // ---------------------------------------------------------------- the tokens of a line

  function WordEnd(s: string, i: nat): (e: nat)
    requires i <= |s|
    ensures i <= e <= |s| && (i < |s| && !IsSpace(s[i]) ==> i < e)
    decreases |s| - i
  {
    if i < |s| && !IsSpace(s[i]) then WordEnd(s, i + 1) else i
  }

  /** The closing delimiter of a quoted token; a backslash hides the next byte from a double quote. */
  function QuoteEnd(s: string, i: nat, delim: char): (e: nat)
    requires i <= |s|
    ensures i <= e <= |s| && (e < |s| ==> s[e] == delim)
    decreases |s| - i
  {
    if i == |s| || s[i] == delim then i
    else if s[i] == BACKSLASH && delim == DOUBLE && i + 1 < |s| then QuoteEnd(s, i + 2, delim)
    else QuoteEnd(s, i + 1, delim)
  }

  /** A token: its text, and where the next one may start. */
  datatype Token = Token(text: string, start: nat, end: nat)

  function TokenAt(s: string, h: nat): (t: Token)
    requires h < |s| && !IsSpace(s[h])
    ensures h <= t.start <= t.end <= |s| && h < t.end
  {
    if s[h] == SINGLE || s[h] == DOUBLE then
      var e := QuoteEnd(s, h + 1, s[h]);
      var raw := s[h + 1..e];
      Token(CStr(if s[h] == DOUBLE then Decode(raw) else raw), h + 1, if e < |s| then e + 1 else e)
    else
      var e := WordEnd(s, h);
      Token(CStr(Decode(s[h..e])), h, if e < |s| then e + 1 else e)
  }

  /** The tokens of line s from h on, at most room of them. */
  function Tokens(s: string, h: nat, room: nat): seq<string>
    requires h <= |s|
    decreases room
  {
    if h == |s| || room == 0 then []
    else
      var h1 := SpaceEnd(s, h);
      if h1 == |s| then [] else [TokenAt(s, h1).text] + Tokens(s, TokenAt(s, h1).end, room - 1)
  }

  /** Memory m holds line s from h on. */
  predicate LineFrom(m: string, h: nat, s: string) {
    NulFree(s) && h <= |s| < |m| && forall k :: h <= k <= |s| ==> m[k] == At(s, k)
  }

  /** The token at p, which nothing from h on can disturb unless the line s is used up. */
  predicate Settled(m: string, p: nat, text: string, h: nat, s: string) {
    StringAt(m, p, text) && (p + |text| < h || h == |s|)
  }

  /** A decoded piece may contain NULs; the string is what precedes the first. */
  lemma DecodedString(m: string, p: nat, d: string)
    requires Holds(m, p, d + [NUL])
    ensures StringAt(m, p, CStr(d)) && |CStr(d)| <= |d|
  {
    var t := CStr(d);
    CStrIs(d);
    forall k | 0 <= k <= |d| ensures m[p + k] == (d + [NUL])[k] {
      HoldsAt(m, p, d + [NUL], k);
    }
    forall k | 0 <= k <= |t| ensures m[p + k] == (t + [NUL])[k] {
      assert m[p + k] == (d + [NUL])[k];
    }
    assert m[p..p + |t + [NUL]|] == t + [NUL];
  }

  method ScanQuoted(a: array<char>, h: nat, delim: char, ghost s: string) returns (e: nat)
    requires LineFrom(a[..], h, s) && (delim == SINGLE || delim == DOUBLE)
    ensures e == QuoteEnd(s, h, delim)
  {
    e := h;
    while a[e] != NUL && a[e] != delim
      invariant h <= e <= |s| && QuoteEnd(s, e, delim) == QuoteEnd(s, h, delim)
      decreases |s| - e
    {
      if a[e] == BACKSLASH && delim == DOUBLE && a[e + 1] != NUL {
        e := e + 1;
      }
      e := e + 1;
    }
  }

  method ScanWord(a: array<char>, h: nat, ghost s: string) returns (e: nat)
    requires LineFrom(a[..], h, s)
    ensures e == WordEnd(s, h)
  {
    e := h;
    while a[e] != NUL && !IsSpace(a[e])
      invariant h <= e <= |s| && WordEnd(s, e) == WordEnd(s, h)
      decreases |s| - e
    {
      e := e + 1;
    }
  }

  method SkipSpace(a: array<char>, h: nat, ghost s: string) returns (e: nat)
    requires LineFrom(a[..], h, s)
    ensures e == SpaceEnd(s, h)
  {
    e := h;
    while IsSpace(a[e])
      invariant h <= e <= |s| && SpaceEnd(s, e) == SpaceEnd(s, h)
      decreases |s| - e
    {
      e := e + 1;
    }
  }

  /** A piece of the line with a NUL after it. */
  lemma Ended(m: string, i: nat, e: nat, s: string)
    requires NulFree(s) && i <= e <= |s| < |m| && m[e] == NUL && forall k :: i <= k < e ==> m[k] == s[k]
    ensures StringAt(m, i, s[i..e])
  {
    assert m[i..e] == s[i..e] && m[i..e + 1] == m[i..e] + [NUL];
  }

  /** Ends the piece [i, e) of the line with a NUL, and dequotes it if asked to. */
  method FinishToken(a: array<char>, i: nat, e: nat, decode: bool, ghost s: string, ghost text: string)
    requires LineFrom(a[..], i, s) && i <= e <= |s|
    requires text == CStr(if decode then Decode(s[i..e]) else s[i..e])
    modifies a
    ensures StringAt(a[..], i, text) && |text| <= e - i && a[e] == NUL
    ensures forall k :: 0 <= k < i || e < k < a.Length ==> a[k] == old(a[k])
  {
    ghost var raw := s[i..e];
    if a[e] != NUL {
      a[e] := NUL;
    }
    Ended(a[..], i, e, s);
    if decode {
      DecodeToken(a, i, raw);
    } else {
      CStrNulFree(raw);
    }
  }

  method DecodeToken(a: array<char>, i: nat, ghost raw: string)
    requires StringAt(a[..], i, raw)
    modifies a
    ensures StringAt(a[..], i, CStr(Decode(raw))) && |CStr(Decode(raw))| <= |raw|
    ensures i + |raw| < a.Length && a[i + |raw|] == old(a[i + |raw|])
    ensures forall k :: 0 <= k < i || i + |raw| < k < a.Length ==> a[k] == old(a[k])
  {
    ghost var d := Decode(raw);
    ResolveBackslashes(a, i, raw);
    assert a[i..i + |d + [NUL]|] == d + [NUL];
    DecodedString(a[..], i, d);
  }

  /** The line after a token that ended at e. */
  lemma LineAfter(m: string, m': string, h: nat, e: nat, s: string)
    requires LineFrom(m, h, s) && h <= e <= |s| && |m'| == |m|
    requires forall k :: e < k < |m| ==> m'[k] == m[k]
    requires e == |s| ==> m'[e] == NUL
    ensures LineFrom(m', if e < |s| then e + 1 else e, s)
  {
  }

  /** Where the token at h starts and ends, and whether it is to be dequoted. */
  method ScanToken(a: array<char>, h: nat, ghost s: string) returns (arg: nat, e: nat, decode: bool)
    requires LineFrom(a[..], h, s) && h < |s| && !IsSpace(s[h])
    ensures h <= arg <= e <= |s| && arg == TokenAt(s, h).start
    ensures TokenAt(s, h).end == if e < |s| then e + 1 else e
    ensures TokenAt(s, h).text == CStr(if decode then Decode(s[arg..e]) else s[arg..e])
  {
    if a[h] == SINGLE || a[h] == DOUBLE {
      arg, decode := h + 1, a[h] == DOUBLE;
      e := ScanQuoted(a, arg, a[h], s);
    } else {
      arg, decode := h, true;
      e := ScanWord(a, arg, s);
    }
  }

  /** One token of the line, from h on. */
  method NextToken(a: array<char>, h: nat, ghost s: string) returns (arg: nat, end: nat)
    requires LineFrom(a[..], h, s) && h < |s| && !IsSpace(s[h])
    modifies a
    ensures arg == TokenAt(s, h).start && end == TokenAt(s, h).end
    ensures Settled(a[..], arg, TokenAt(s, h).text, end, s)
    ensures LineFrom(a[..], end, s)
    ensures forall k :: 0 <= k < h ==> a[k] == old(a[k])
  {
    ghost var m, text := a[..], TokenAt(s, h).text;
    var e, decode;
    arg, e, decode := ScanToken(a, h, s);
    end := if a[e] != NUL then e + 1 else e;
    FinishToken(a, arg, e, decode, s, text);
    LineAfter(m, a[..], h, e, s);
  }

  lemma StillSettled(m: string, m': string, p: nat, text: string, h: nat, h': nat, s: string)
    requires Settled(m, p, text, h, s) && h < |s| && h <= h' && |m'| == |m|
    requires forall k :: 0 <= k < h && k < |m| ==> m'[k] == m[k]
    ensures Settled(m', p, text, h', s)
  {
    assert m'[p..p + |text + [NUL]|] == m[p..p + |text + [NUL]|];
  }

  /** args are settled at the first of the texts. */
  predicate AllSettled(m: string, args: seq<nat>, texts: seq<string>, h: nat, s: string) {
    |args| <= |texts| && forall k {:trigger args[k]} :: 0 <= k < |args| ==> Settled(m, args[k], texts[k], h, s)
  }

  /** Adds the token at h to those found before h0. */
  method AddToken(a: array<char>, ghost h0: nat, h: nat, ghost s: string, args: seq<nat>, ghost texts: seq<string>)
    returns (args': seq<nat>, end: nat)
    requires LineFrom(a[..], h, s) && h0 <= h < |s| && !IsSpace(s[h]) && AllSettled(a[..], args, texts, h0, s)
    requires |args| < |texts| && texts[|args|] == TokenAt(s, h).text
    modifies a
    ensures end == TokenAt(s, h).end && LineFrom(a[..], end, s) && |args'| == |args| + 1
    ensures AllSettled(a[..], args', texts, end, s)
  {
    ghost var m := a[..];
    var arg;
    arg, end := NextToken(a, h, s);
    forall k | 0 <= k < |args| ensures Settled(a[..], args[k], texts[k], end, s) {
      StillSettled(m, a[..], args[k], texts[k], h0, end, s);
    }
    args' := args + [arg];
  }

  lemma TokensStep(s: string, h: nat, start: nat, room: nat, text: string, end: nat)
    requires h <= |s| && room > 0 && SpaceEnd(s, h) == start < |s|
    requires TokenAt(s, start).text == text && TokenAt(s, start).end == end
    ensures Tokens(s, h, room) == [text] + Tokens(s, end, room - 1)
  {
  }

  lemma TokensEnd(s: string, h: nat, room: nat)
    requires h <= |s| && (SpaceEnd(s, h) == |s| || room == 0)
    ensures Tokens(s, h, room) == []
  {
  }

  /** The first of what is left is the token found; the others are left. */
  lemma LeftStep(texts: seq<string>, n: nat, text: string, left: seq<string>)
    requires n <= |texts| && texts[n..] == [text] + left
    ensures n < |texts| && texts[n] == text && texts[n + 1..] == left
  {
    assert texts[n..][0] == text && texts[n..][1..] == left;
  }

  /** Skips white space and adds the next token, if there is one. */
  method ParseStep(a: array<char>, h: nat, ghost s: string, args: seq<nat>, ghost texts: seq<string>, ghost room: nat)
    returns (more: bool, args': seq<nat>, end: nat, ghost left: seq<string>)
    requires LineFrom(a[..], h, s) && h < |s| && AllSettled(a[..], args, texts, h, s)
    requires room > 0 && texts[|args|..] == Tokens(s, h, room)
    modifies a
    ensures more ==>
              && LineFrom(a[..], end, s) && h < end && AllSettled(a[..], args', texts, end, s)
              && |args'| == |args| + 1 && texts[|args'|..] == left && left == Tokens(s, end, room - 1)
    ensures !more ==> args' == args && |args| == |texts| && a[..] == old(a[..])
  {
    args', left := args, [];
    end := SkipSpace(a, h, s);
    more := a[end] != NUL;
    if more {
      ghost var t := TokenAt(s, end);
      left := Tokens(s, t.end, room - 1);
      TokensStep(s, h, end, room, t.text, t.end);
      LeftStep(texts, |args|, t.text, left);
      args', end := AddToken(a, h, end, s, args, texts);
    } else {
      TokensEnd(s, h, room);
    }
  }

  /** Splits the line into tokens in place; args are the positions of the tokens.  slots is the size
      of the array that receives them, 50 in do_meta_command. */
  method ParseLine(a: array<char>, ghost s: string, slots: nat) returns (args: seq<nat>)
    requires LineFrom(a[..], 0, s) && s != ""
    modifies a
    ensures |args| == |Tokens(s, 1, slots)|
    ensures forall k :: 0 <= k < |args| ==> StringAt(a[..], args[k], Tokens(s, 1, slots)[k])
  {
    args := ParseTokens(a, s, Tokens(s, 1, slots), slots);
  }

  method ParseTokens(a: array<char>, ghost s: string, ghost texts: seq<string>, slots: nat) returns (args: seq<nat>)
    requires LineFrom(a[..], 0, s) && s != "" && texts == Tokens(s, 1, slots)
    modifies a
    ensures |args| == |texts|
    ensures forall k :: 0 <= k < |args| ==> StringAt(a[..], args[k], texts[k])
  {
    args := [];
    var h := 1;
    ghost var room, left := slots, texts;
    while a[h] != NUL && |args| < slots
      invariant LineFrom(a[..], h, s) && AllSettled(a[..], args, texts, h, s)
      invariant |args| + room == slots && texts[|args|..] == left && left == Tokens(s, h, room)
      decreases |s| - h
    {
      var more, end;
      more, args, end, left := ParseStep(a, h, s, args, texts, room);
      if !more {
        return;
      }
      h, room := end, room - 1;
    }
    TokensEnd(s, h, room);
  }

  // ---------------------------------------------------------------- escapes as they are documented

  /** One byte of a word: written as itself, or by a backslash and a letter or any other byte that is
      not an octal digit, or by a backslash and octal digits. */
  datatype Unit = Plain(c: char) | Named(c: char) | Octal(digits: string)

  const NAMES: map<char, char> :=
    map['a' := 7 as char, 'b' := 8 as char, 't' := '\t', 'n' := '\n', 'v' := 11 as char, 'f' := 12 as char,
        'r' := '\r']

  predicate AllOctal(digits: string) {
    forall i :: 0 <= i < |digits| ==> IsOctal(digits[i])
  }

  function Value(digits: string): nat
    requires AllOctal(digits)
  {
    if digits == "" then 0 else 8 * Value(digits[..|digits| - 1]) + (digits[|digits| - 1] - '0') as int
  }

  predicate GoodUnit(u: Unit) {
    match u
    case Plain(c) => c != NUL && c != BACKSLASH
    case Named(c) => c != NUL && !IsOctal(c)
    case Octal(digits) => 1 <= |digits| <= 3 && AllOctal(digits)
  }

  function UnitText(u: Unit): string {
    match u
    case Plain(c) => [c]
    case Named(c) => [BACKSLASH, c]
    case Octal(digits) => [BACKSLASH] + digits
  }

  function UnitByte(u: Unit): char
    requires GoodUnit(u)
  {
    match u
    case Plain(c) => c
    case Named(c) => if c in NAMES then NAMES[c] else c
    case Octal(digits) => (Value(digits) % 256) as char
  }

  /** The text does not go on with a digit that would be taken for one of u. */
  predicate Parted(u: Unit, text: string) {
    u.Octal? && |u.digits| < 3 && text != "" ==> !IsOctal(text[0])
  }

  function UnitsText(us: seq<Unit>): string {
    if us == [] then "" else UnitText(us[0]) + UnitsText(us[1..])
  }

  predicate GoodUnits(us: seq<Unit>) {
    us == [] || (GoodUnit(us[0]) && Parted(us[0], UnitsText(us[1..])) && GoodUnits(us[1..]))
  }

  /** No double quote stands for itself. */
  predicate NoQuote(us: seq<Unit>) {
    us == [] || (us[0] != Plain(DOUBLE) && NoQuote(us[1..]))
  }

  function UnitsBytes(us: seq<Unit>): string
    requires GoodUnits(us)
  {
    if us == [] then "" else [UnitByte(us[0])] + UnitsBytes(us[1..])
  }

  lemma ValueOne(d: string)
    requires |d| == 1 && AllOctal(d)
    ensures Value(d) == OctalValue(d[0])
  {
    assert d[..0] == "";
  }

  lemma ValueTwo(d: string)
    requires |d| == 2 && AllOctal(d)
    ensures Value(d) == OctalValue(d[0]) * 8 + OctalValue(d[1])
  {
    ValueOne(d[..1]);
  }

  lemma ValueThree(d: string)
    requires |d| == 3 && AllOctal(d)
    ensures Value(d) == OctalValue(d[0]) * 64 + OctalValue(d[1]) * 8 + OctalValue(d[2])
  {
    ValueTwo(d[..2]);
  }

  /** The octal digits at the start of s, and no others. */
  predicate DigitsAt(s: string, digits: string) {
    && 1 <= |digits| <= 3 && AllOctal(digits) && |s| > |digits|
    && (forall k :: 0 <= k < |digits| ==> s[k + 1] == digits[k])
    && (|digits| < 3 && |digits| + 1 < |s| ==> !IsOctal(s[|digits| + 1]))
  }

  lemma OctalBytes(digits: string, t: string)
    requires GoodUnit(Octal(digits)) && Parted(Octal(digits), t)
    ensures DigitsAt([BACKSLASH] + digits + t, digits)
  {
  }

  /** What Unescape makes of octal digits. */
  lemma UnescapeDigits(s: string)
    requires |s| > 1 && IsOctal(s[1])
    ensures var two := |s| > 2 && IsOctal(s[2]);
            var three := two && |s| > 3 && IsOctal(s[3]);
            Unescape(s) ==
            if three then (((OctalValue(s[1]) * 64 + OctalValue(s[2]) * 8 + OctalValue(s[3])) % 256) as char, 4)
            else if two then ((OctalValue(s[1]) * 8 + OctalValue(s[2])) as char, 3)
            else (OctalValue(s[1]) as char, 2)
  {
  }

  lemma ValueIs(d: string)
    requires 1 <= |d| <= 3 && AllOctal(d)
    ensures Value(d) == if |d| == 1 then OctalValue(d[0])
                        else if |d| == 2 then OctalValue(d[0]) * 8 + OctalValue(d[1])
                        else OctalValue(d[0]) * 64 + OctalValue(d[1]) * 8 + OctalValue(d[2])
    ensures |d| < 3 ==> Value(d) % 256 == Value(d)
  {
    if |d| == 1 { ValueOne(d); } else if |d| == 2 { ValueTwo(d); } else { ValueThree(d); }
  }

  lemma UnescapeOctal(s: string, digits: string)
    requires DigitsAt(s, digits)
    ensures Unescape(s) == ((Value(digits) % 256) as char, |digits| + 1)
  {
    assert s[1] == digits[0];
    assert |digits| > 1 ==> s[2] == digits[1];
    assert |digits| > 2 ==> s[3] == digits[2];
    UnescapeDigits(s);
    ValueIs(digits);
  }

  lemma FirstUnit(u: Unit, t: string)
    requires GoodUnit(u) && Parted(u, t)
    ensures First(UnitText(u) + t) == (UnitByte(u), |UnitText(u)|)
  {
    match u
    case Plain(_) =>
    case Named(_) =>
    case Octal(digits) => OctalBytes(digits, t); UnescapeOctal(UnitText(u) + t, digits);
  }

  /** Each unit is decoded to its byte, and what follows is decoded by itself. */
  lemma DecodeUnit(u: Unit, t: string)
    requires GoodUnit(u) && Parted(u, t)
    ensures Decode(UnitText(u) + t) == [UnitByte(u)] + Decode(t)
  {
    var s := UnitText(u) + t;
    FirstUnit(u, t);
    assert s[|UnitText(u)|..] == t;
  }

  /** Dequoting turns every escape into the byte it is documented for, and leaves the rest alone. */
  lemma {:induction false} DecodeUnits(us: seq<Unit>)
    requires GoodUnits(us)
    ensures Decode(UnitsText(us)) == UnitsBytes(us)
  {
    if us != [] {
      DecodeUnit(us[0], UnitsText(us[1..]));
      DecodeUnits(us[1..]);
    }
  }

  lemma {:induction false} UnitsNulFree(us: seq<Unit>)
    requires GoodUnits(us)
    ensures NulFree(UnitsText(us))
  {
    if us != [] { UnitsNulFree(us[1..]); }
  }

  // ---------------------------------------------------------------- words as they are written

  /** A word of the line: bare, between single quotes, or between double quotes. */
  datatype Word = Bare(units: seq<Unit>) | Single(text: string) | Double(units: seq<Unit>)

  predicate GoodWord(w: Word) {
    match w
    case Bare(units) =>
      var text := UnitsText(units);
      && GoodUnits(units) && text != "" && text[0] != SINGLE && text[0] != DOUBLE
      && forall k :: 0 <= k < |text| ==> !IsSpace(text[k])
    case Single(text) => NulFree(text) && SINGLE !in text
    case Double(units) => GoodUnits(units) && NoQuote(units)
  }

  function WordText(w: Word): string {
    match w
    case Bare(units) => UnitsText(units)
    case Single(text) => [SINGLE] + (text + [SINGLE])
    case Double(units) => [DOUBLE] + (UnitsText(units) + [DOUBLE])
  }

  /** The argument a word stands for; a NUL ends it. */
  function WordValue(w: Word): string
    requires GoodWord(w)
  {
    match w
    case Bare(units) => CStr(UnitsBytes(units))
    case Single(text) => text
    case Double(units) => CStr(UnitsBytes(units))
  }

  lemma {:induction false} WordEndIs(s: string, i: nat, e: nat)
    requires i <= e <= |s| && (forall k :: i <= k < e ==> !IsSpace(s[k])) && (e < |s| ==> IsSpace(s[e]))
    ensures WordEnd(s, i) == e
    decreases e - i
  {
    if i < e { WordEndIs(s, i + 1, e); }
  }

  lemma {:induction false} QuoteEndOver(s: string, i: nat, e: nat, delim: char)
    requires i <= e <= |s| && forall k :: i <= k < e ==> s[k] != delim && (delim == DOUBLE ==> s[k] != BACKSLASH)
    ensures QuoteEnd(s, i, delim) == QuoteEnd(s, e, delim)
    decreases e - i
  {
    if i < e { QuoteEndOver(s, i + 1, e, delim); }
  }

  /** The search for a closing double quote passes over a unit. */
  lemma QuoteEndUnit(s: string, h: nat, u: Unit, next: nat)
    requires GoodUnit(u) && u != Plain(DOUBLE) && Holds(s, h, UnitText(u)) && next == h + |UnitText(u)|
    ensures QuoteEnd(s, h, DOUBLE) == QuoteEnd(s, next, DOUBLE)
  {
    var t := UnitText(u);
    forall k | h <= k < h + |t| ensures s[k] == t[k - h] {
      HoldsAt(s, h, t, k - h);
    }
    if |t| > 1 { QuoteEndOver(s, h + 2, next, DOUBLE); }
  }

  /** No byte of the units is mistaken for the closing quote. */
  lemma {:induction false} QuoteEndUnits(s: string, h: nat, us: seq<Unit>, e: nat)
    requires GoodUnits(us) && NoQuote(us) && Holds(s, h, UnitsText(us))
    requires e == h + |UnitsText(us)| && (e < |s| ==> s[e] == DOUBLE)
    ensures QuoteEnd(s, h, DOUBLE) == e
    decreases |us|
  {
    if us != [] {
      var next := h + |UnitText(us[0])|;
      UnitsParts(s, h, us[0], us[1..], next);
      QuoteEndUnit(s, h, us[0], next);
      QuoteEndUnits(s, next, us[1..], e);
    }
  }

  lemma UnitsParts(s: string, h: nat, u: Unit, rest: seq<Unit>, next: nat)
    requires Holds(s, h, UnitText(u) + UnitsText(rest)) && next == h + |UnitText(u)|
    ensures Holds(s, h, UnitText(u)) && Holds(s, next, UnitsText(rest))
  {
    HoldsParts(s, h, UnitText(u), UnitsText(rest));
  }

  /** The word ends at e, with white space or the end of the line behind it. */
  predicate Stands(s: string, h: nat, w: Word, e: nat) {
    GoodWord(w) && Holds(s, h, WordText(w)) && e == h + |WordText(w)| && (e < |s| ==> IsSpace(s[e]))
  }

  /** A bare word takes the byte behind it, too. */
  lemma BareToken(s: string, h: nat, w: Word, e: nat)
    requires Stands(s, h, w, e) && w.Bare?
    ensures h < |s| && !IsSpace(s[h])
    ensures TokenAt(s, h).text == WordValue(w) && TokenAt(s, h).end == if e < |s| then e + 1 else e
  {
    var text := UnitsText(w.units);
    forall k | h <= k < e ensures s[k] == text[k - h] {
      HoldsAt(s, h, text, k - h);
    }
    WordEndIs(s, h, e);
    DecodeUnits(w.units);
  }

  lemma QuotedToken(s: string, h: nat, raw: string, delim: char, e: nat)
    requires (delim == SINGLE || delim == DOUBLE) && h < |s| && s[h] == delim
    requires QuoteEnd(s, h + 1, delim) == e && s[h + 1..e] == raw
    ensures TokenAt(s, h) ==
            Token(CStr(if delim == DOUBLE then Decode(raw) else raw), h + 1, if e < |s| then e + 1 else e)
  {
  }

  /** The bytes of a quoted text, whose closing quote is at e. */
  lemma QuotedParts(s: string, h: nat, raw: string, delim: char, e: nat)
    requires Holds(s, h, [delim] + (raw + [delim])) && e == h + 1 + |raw|
    ensures e < |s| && s[h] == delim && s[e] == delim && Holds(s, h + 1, raw) && s[h + 1..e] == raw
  {
    HoldsParts(s, h, [delim], raw + [delim]);
    HoldsAt(s, h, [delim], 0);
    HoldsParts(s, h + 1, raw, [delim]);
    HoldsAt(s, e, [delim], 0);
  }

  /** No byte of a single-quoted text is mistaken for the closing quote. */
  lemma QuoteEndSingle(s: string, h: nat, z: string, e: nat)
    requires SINGLE !in z && Holds(s, h, z) && e == h + |z| && (e < |s| ==> s[e] == SINGLE)
    ensures QuoteEnd(s, h, SINGLE) == e
  {
    forall k | 0 <= k < |z| ensures s[h + k] == z[k] {
      HoldsAt(s, h, z, k);
    }
    QuoteEndOver(s, h, e, SINGLE);
  }

  lemma SingleToken(s: string, h: nat, z: string, e: nat)
    requires NulFree(z) && SINGLE !in z && Holds(s, h, [SINGLE] + (z + [SINGLE])) && e == h + 1 + |z|
    ensures e < |s| && s[h] == SINGLE && TokenAt(s, h) == Token(z, h + 1, e + 1)
  {
    QuotedParts(s, h, z, SINGLE, e);
    QuoteEndSingle(s, h + 1, z, e);
    QuotedToken(s, h, z, SINGLE, e);
    CStrNulFree(z);
  }

  lemma DoubleToken(s: string, h: nat, us: seq<Unit>, raw: string, e: nat)
    requires GoodUnits(us) && NoQuote(us) && raw == UnitsText(us)
    requires Holds(s, h, [DOUBLE] + (raw + [DOUBLE])) && e == h + 1 + |raw|
    ensures e < |s| && s[h] == DOUBLE && TokenAt(s, h) == Token(CStr(UnitsBytes(us)), h + 1, e + 1)
  {
    QuotedParts(s, h, raw, DOUBLE, e);
    QuoteEndUnits(s, h + 1, us, e);
    QuotedToken(s, h, raw, DOUBLE, e);
    DecodeUnits(us);
  }

  /** A quote that is not closed takes the rest of the line. */
  lemma OpenSingle(s: string, h: nat, z: string)
    requires NulFree(z) && SINGLE !in z && Holds(s, h, [SINGLE] + z) && |s| == h + 1 + |z|
    ensures TokenAt(s, h) == Token(z, h + 1, |s|)
  {
    HoldsAt(s, h, [SINGLE] + z, 0);
    HoldsParts(s, h, [SINGLE], z);
    QuoteEndSingle(s, h + 1, z, |s|);
    QuotedToken(s, h, z, SINGLE, |s|);
    CStrNulFree(z);
  }

  lemma OpenDouble(s: string, h: nat, us: seq<Unit>)
    requires GoodUnits(us) && NoQuote(us) && Holds(s, h, [DOUBLE] + UnitsText(us)) && |s| == h + 1 + |UnitsText(us)|
    ensures TokenAt(s, h) == Token(CStr(UnitsBytes(us)), h + 1, |s|)
  {
    var raw := UnitsText(us);
    HoldsAt(s, h, [DOUBLE] + raw, 0);
    HoldsParts(s, h, [DOUBLE], raw);
    QuoteEndUnits(s, h + 1, us, |s|);
    QuotedToken(s, h, raw, DOUBLE, |s|);
    DecodeUnits(us);
  }

  /** The token at h has this value and ends at e, or takes a white space byte at e with it. */
  predicate IsToken(s: string, h: nat, e: nat, value: string) {
    && h < e <= |s| && !IsSpace(s[h]) && TokenAt(s, h).text == value
    && (TokenAt(s, h).end == e || (e < |s| && IsSpace(s[e]) && TokenAt(s, h).end == e + 1))
  }

  /** Wherever this text stands in a line, it is a token of this value. */
  ghost predicate Reads(text: string, value: string) {
    forall s: string, h: nat :: Holds(s, h, text) && (h + |text| < |s| ==> IsSpace(s[h + |text|])) ==>
                                IsToken(s, h, h + |text|, value)
  }

  lemma WordIs(s: string, h: nat, w: Word, e: nat)
    requires Stands(s, h, w, e)
    ensures IsToken(s, h, e, WordValue(w))
  {
    match w
    case Bare(_) => BareToken(s, h, w, e);
    case Single(text) => SingleToken(s, h, text, e - 1);
    case Double(units) => DoubleToken(s, h, units, UnitsText(units), e - 1);
  }

  lemma WordReads(w: Word, text: string, value: string)
    requires GoodWord(w) && text == WordText(w) && value == WordValue(w)
    ensures Reads(text, value)
  {
    forall s: string, h: nat | Holds(s, h, text) && (h + |text| < |s| ==> IsSpace(s[h + |text|]))
      ensures IsToken(s, h, h + |text|, value)
    {
      WordIs(s, h, w, h + |text|);
    }
  }

  // ---------------------------------------------------------------- lines as they are written

  /** The text of a word, the argument it stands for, and the white space before it. */
  datatype Piece = Piece(gap: string, text: string, value: string)

  predicate Blank(gap: string) {
    forall k :: 0 <= k < |gap| ==> IsSpace(gap[k])
  }

  /** Words are apart; white space before the first of the line is not needed. */
  ghost predicate GoodLine(pieces: seq<Piece>, first: bool) {
    pieces == [] ||
    var p := pieces[0];
    Reads(p.text, p.value) && Blank(p.gap) && (first || p.gap != "") && GoodLine(pieces[1..], false)
  }

  function LineText(pieces: seq<Piece>, trail: string): string {
    if pieces == [] then trail else pieces[0].gap + (pieces[0].text + LineText(pieces[1..], trail))
  }

  function Values(pieces: seq<Piece>): seq<string> {
    if pieces == [] then [] else [pieces[0].value] + Values(pieces[1..])
  }

  /** The first arguments, at most room of them. */
  function Take(args: seq<string>, room: nat): seq<string> {
    if args == [] || room == 0 then [] else [args[0]] + Take(args[1..], room - 1)
  }

  lemma {:induction false} TakeIs(args: seq<string>, room: nat)
    ensures Take(args, room) == if |args| <= room then args else args[..room]
  {
    if args != [] && room > 0 {
      TakeIs(args[1..], room - 1);
    }
  }

  lemma {:induction false} SpaceEndIs(s: string, h: nat, e: nat)
    requires h <= e <= |s| && AllSpace(s, h, e) && (e < |s| ==> !IsSpace(s[e]))
    ensures SpaceEnd(s, h) == e
    decreases e - h
  {
    if h < e { SpaceEndIs(s, h + 1, e); }
  }

  lemma BlankAt(s: string, h: nat, gap: string)
    requires Holds(s, h, gap) && Blank(gap)
    ensures AllSpace(s, h, h + |gap|)
  {
    forall k | h <= k < h + |gap| ensures IsSpace(s[k]) {
      HoldsAt(s, h, gap, k - h);
    }
  }

  lemma SpaceOver(s: string, h: nat, room: nat)
    requires h < |s| && IsSpace(s[h])
    ensures Tokens(s, h, room) == Tokens(s, h + 1, room)
  {
    assert SpaceEnd(s, h) == SpaceEnd(s, h + 1);
  }

  lemma Behind(s: string, e: nat, end: nat, room: nat)
    requires e <= |s| && (end == e || (e < |s| && IsSpace(s[e]) && end == e + 1))
    ensures Tokens(s, end, room) == Tokens(s, e, room)
  {
    if end == e + 1 { SpaceOver(s, e, room); }
  }

  lemma TokenStep(s: string, h: nat, start: nat, end: nat, value: string, room: nat, rest: seq<string>)
    requires h <= start < |s| && AllSpace(s, h, start) && !IsSpace(s[start]) && room > 0
    requires TokenAt(s, start).text == value && TokenAt(s, start).end == end && rest == Tokens(s, end, room - 1)
    ensures Tokens(s, h, room) == [value] + rest
  {
    SpaceEndIs(s, h, start);
    TokensStep(s, h, start, room, value, end);
  }

  /** A token after white space is the first one, and the rest are those from its end on. */
  lemma TokenThen(s: string, h: nat, start: nat, e: nat, value: string, room: nat, left: nat, rest: seq<string>)
    requires h <= start <= |s| && AllSpace(s, h, start) && IsToken(s, start, e, value) && room == left + 1
    requires rest == Tokens(s, e, left)
    ensures Tokens(s, h, room) == [value] + rest
  {
    var end := TokenAt(s, start).end;
    Behind(s, e, end, left);
    TokenStep(s, h, start, end, value, room, Tokens(s, end, left));
  }

  lemma StartsBlank(pieces: seq<Piece>, trail: string)
    requires GoodLine(pieces, false) && Blank(trail)
    ensures LineText(pieces, trail) != "" ==> IsSpace(LineText(pieces, trail)[0])
  {
  }

  lemma PieceParts(s: string, h: nat, p: Piece, later: string, start: nat, e: nat)
    requires Holds(s, h, p.gap + (p.text + later)) && Blank(p.gap)
    requires start == h + |p.gap| && e == start + |p.text|
    ensures e <= |s| && AllSpace(s, h, start) && Holds(s, start, p.text) && Holds(s, e, later)
  {
    HoldsParts(s, h, p.gap, p.text + later);
    BlankAt(s, h, p.gap);
    HoldsParts(s, start, p.text, later);
  }

  /** The first word of a line, and what is behind it. */
  lemma FirstPiece(s: string, h: nat, p: Piece, later: string) returns (start: nat, e: nat)
    requires Holds(s, h, p.gap + (p.text + later)) && Blank(p.gap) && Reads(p.text, p.value)
    requires |s| == h + |p.gap + (p.text + later)| && (later != "" ==> IsSpace(later[0]))
    ensures h <= start <= |s| && AllSpace(s, h, start) && IsToken(s, start, e, p.value)
    ensures Holds(s, e, later) && |s| == e + |later|
  {
    start := h + |p.gap|;
    e := start + |p.text|;
    PieceParts(s, h, p, later, start, e);
    if later != "" { HoldsAt(s, e, later, 0); }
  }

  lemma TakeFirst(pieces: seq<Piece>, room: nat)
    requires room > 0 && pieces != []
    ensures Take(Values(pieces), room) == [pieces[0].value] + Take(Values(pieces[1..]), room - 1)
  {
    assert Values(pieces)[1..] == Values(pieces[1..]);
  }

  lemma NoTokens(s: string, h: nat, room: nat)
    requires h <= |s| && (room == 0 || AllSpace(s, h, |s|))
    ensures Tokens(s, h, room) == []
  {
    if room > 0 { SpaceEndIs(s, h, |s|); }
    TokensEnd(s, h, room);
  }

  /** From h to its end, s is these words and trail. */
  ghost predicate Line(s: string, h: nat, pieces: seq<Piece>, trail: string, first: bool) {
    && GoodLine(pieces, first) && Blank(trail)
    && Holds(s, h, LineText(pieces, trail)) && |s| == h + |LineText(pieces, trail)|
  }

  lemma LineStep(s: string, h: nat, pieces: seq<Piece>, trail: string, first: bool) returns (start: nat, e: nat)
    requires Line(s, h, pieces, trail, first) && pieces != []
    ensures h <= start <= |s| && AllSpace(s, h, start) && IsToken(s, start, e, pieces[0].value)
    ensures Line(s, e, pieces[1..], trail, false)
  {
    StartsBlank(pieces[1..], trail);
    start, e := FirstPiece(s, h, pieces[0], LineText(pieces[1..], trail));
  }

  lemma LineEnd(s: string, h: nat, pieces: seq<Piece>, trail: string, first: bool, room: nat)
    requires Line(s, h, pieces, trail, first) && (pieces == [] || room == 0)
    ensures Tokens(s, h, room) == Take(Values(pieces), room) == []
  {
    if room > 0 { BlankAt(s, h, trail); }
    NoTokens(s, h, room);
  }

  lemma {:induction false} LineTokens(s: string, h: nat, pieces: seq<Piece>, trail: string, first: bool, room: nat)
    requires Line(s, h, pieces, trail, first)
    ensures Tokens(s, h, room) == Take(Values(pieces), room)
    decreases |pieces|
  {
    if pieces == [] || room == 0 {
      LineEnd(s, h, pieces, trail, first, room);
    } else {
      var start, e := LineStep(s, h, pieces, trail, first);
      var left, rest := room - 1, Take(Values(pieces[1..]), room - 1);
      LineTokens(s, e, pieces[1..], trail, false, left);
      TokenThen(s, h, start, e, pieces[0].value, room, left, rest);
      TakeFirst(pieces, room);
    }
  }

  /** Whatever its words are, and however they are spaced, a line comes apart into exactly the arguments
      they stand for; of more than there are slots for, the first ones. */
  lemma EveryLine(pieces: seq<Piece>, trail: string, slots: nat)
    requires GoodLine(pieces, true) && Blank(trail)
    ensures var args := Values(pieces);
            Tokens("." + LineText(pieces, trail), 1, slots) == if |args| <= slots then args else args[..slots]
  {
    var s := "." + LineText(pieces, trail);
    assert s[1..|s|] == LineText(pieces, trail);
    LineTokens(s, 1, pieces, trail, true, slots);
    TakeIs(Values(pieces), slots);
  }

  // ---------------------------------------------------------------- arguments as they are spelled

  function Plains(z: string): seq<Unit> {
    seq(|z|, i requires 0 <= i < |z| => Plain(z[i]))
  }

  lemma {:induction false} PlainsAre(z: string)
    requires NulFree(z) && BACKSLASH !in z
    ensures GoodUnits(Plains(z)) && UnitsText(Plains(z)) == z && UnitsBytes(Plains(z)) == z
  {
    if z != "" {
      assert Plains(z)[1..] == Plains(z[1..]);
      PlainsAre(z[1..]);
    }
  }

  /** The unit a byte is printed as in C notation. */
  function Printed(c: char): (u: Unit)
    requires c as int < 256
    ensures UnitText(u) == Escape(c)
  {
    if c == BACKSLASH || c == DOUBLE then Named(c)
    else if c == '\t' then Named('t')
    else if c == '\n' then Named('n')
    else if c == '\r' then Named('r')
    else if !IsPrint(c) then Octal(Escape(c)[1..])
    else Plain(c)
  }

  lemma OctalNotation(c: char)
    requires c as int < 256 && Printed(c).Octal?
    ensures GoodUnit(Printed(c)) && Value(Printed(c).digits) == c as int && |Printed(c).digits| == 3
  {
    var n := c as int;
    assert Printed(c).digits == [OctalDigit(n / 64), OctalDigit(n / 8 % 8), OctalDigit(n % 8)];
    ValueThree(Printed(c).digits);
    assert n == n / 64 * 64 + n / 8 % 8 * 8 + n % 8;
  }

  lemma PrintedByte(c: char)
    requires c as int < 256 && c != NUL
    ensures GoodUnit(Printed(c)) && UnitByte(Printed(c)) == c && Printed(c) != Plain(DOUBLE)
    ensures Printed(c).Octal? ==> |Printed(c).digits| == 3
  {
    if Printed(c).Octal? { OctalNotation(c); }
  }

  /** An argument: bytes, none of them NUL. */
  type Arg = z: string | Bytes(z) && NulFree(z)

  function PrintedAll(z: Arg): seq<Unit> {
    if z == "" then [] else [Printed(z[0])] + PrintedAll(z[1..])
  }

  lemma {:induction false} PrintedAre(z: Arg)
    ensures var us := PrintedAll(z);
            GoodUnits(us) && UnitsText(us) == EscapeAll(z) && UnitsBytes(us) == z && NoQuote(us)
  {
    if z != "" {
      PrintedByte(z[0]);
      PrintedAre(z[1..]);
    }
  }

  /** Dequoting undoes the printer. */
  lemma DecodeEscapeAll(z: Arg)
    ensures Decode(EscapeAll(z)) == z
  {
    PrintedAre(z);
    DecodeUnits(PrintedAll(z));
  }

  /** How an argument is spelled: as it is, between single quotes, or in C notation. */
  datatype Style = AsItIs | InSingleQuotes | InC

  datatype Spelling = Spelling(z: string, style: Style)

  predicate Spellable(a: Spelling) {
    match a.style
    case AsItIs =>
      && a.z != "" && NulFree(a.z) && BACKSLASH !in a.z && a.z[0] != SINGLE && a.z[0] != DOUBLE
      && forall k :: 0 <= k < |a.z| ==> !IsSpace(a.z[k])
    case InSingleQuotes => NulFree(a.z) && SINGLE !in a.z
    case InC => NulFree(a.z) && Bytes(a.z)
  }

  function Spelled(a: Spelling): string
    requires Spellable(a)
  {
    match a.style
    case AsItIs => a.z
    case InSingleQuotes => [SINGLE] + a.z + [SINGLE]
    case InC => CText(a.z)
  }

  /** However it is spelled, an argument is one token, and that token is the argument. */
  lemma SpelledReads(a: Spelling)
    requires Spellable(a)
    ensures Reads(Spelled(a), a.z)
  {
    CStrNulFree(a.z);
    match a.style
    case AsItIs =>
      PlainsAre(a.z);
      WordReads(Bare(Plains(a.z)), a.z, a.z);
    case InSingleQuotes =>
      Regroup([SINGLE], a.z, [SINGLE]);
      WordReads(Single(a.z), Spelled(a), a.z);
    case InC =>
      PrintedAre(a.z);
      Regroup([DOUBLE], EscapeAll(a.z), [DOUBLE]);
      WordReads(Double(PrintedAll(a.z)), Spelled(a), a.z);
  }

  /** Arguments with blanks between them. */
  function Sentence(args: seq<Spelling>): string
    requires forall a <- args :: Spellable(a)
  {
    if args == [] then "" else if |args| == 1 then Spelled(args[0]) else Spelled(args[0]) + " " + Sentence(args[1..])
  }

  function Pieces(args: seq<Spelling>, gap: string): seq<Piece>
    requires forall a <- args :: Spellable(a)
  {
    if args == [] then [] else [Piece(gap, Spelled(args[0]), args[0].z)] + Pieces(args[1..], " ")
  }

  function Meant(args: seq<Spelling>): seq<string> {
    seq(|args|, i requires 0 <= i < |args| => args[i].z)
  }

  lemma {:induction false} PiecesAre(args: seq<Spelling>, gap: string)
    requires forall a <- args :: Spellable(a)
    requires Blank(gap)
    ensures GoodLine(Pieces(args, gap), gap == "") && Values(Pieces(args, gap)) == Meant(args)
    ensures args != [] ==> LineText(Pieces(args, gap), "") == gap + Sentence(args)
    decreases |args|
  {
    if args != [] {
      SpelledReads(args[0]);
      PiecesAre(args[1..], " ");
      assert Meant(args) == [args[0].z] + Meant(args[1..]);
      SentenceFirst(args, gap);
    }
  }

  lemma SentenceFirst(args: seq<Spelling>, gap: string)
    requires args != [] && forall a <- args :: Spellable(a)
    ensures var rest := if |args| == 1 then "" else " " + Sentence(args[1..]);
            gap + (Spelled(args[0]) + rest) == gap + Sentence(args)
  {
    if |args| == 1 {
      assert Spelled(args[0]) + "" == Spelled(args[0]);
    } else {
      Regroup(Spelled(args[0]), " ", Sentence(args[1..]));
    }
  }

  /** Any arguments, each spelled in any style that can spell it, after a dot and with blanks between
      them, come back as exactly those arguments; of more than there are slots for, the first ones. */
  lemma EverySpelling(args: seq<Spelling>, slots: nat)
    requires forall a <- args :: Spellable(a)
    ensures Tokens("." + Sentence(args), 1, slots) == if |args| <= slots then Meant(args) else Meant(args)[..slots]
  {
    PiecesAre(args, "");
    assert args != [] ==> "" + Sentence(args) == Sentence(args);
    EveryLine(Pieces(args, ""), "", slots);
  }

  // ---------------------------------------------------------------- the round trip

  /** Arguments in C notation, with blanks between them. */
  function ArgsText(args: seq<Arg>): string
  {
    if args == [] then ""
    else if |args| == 1 then CText(args[0])
    else CText(args[0]) + " " + ArgsText(args[1..])
  }

  function AllInC(args: seq<Arg>): (r: seq<Spelling>)
    ensures |r| == |args| && forall i :: 0 <= i < |r| ==> r[i] == Spelling(args[i], InC)
  {
    seq(|args|, i requires 0 <= i < |args| => Spelling(args[i], InC))
  }

  lemma {:induction false} ArgsSentence(args: seq<Arg>)
    ensures Sentence(AllInC(args)) == ArgsText(args)
  {
    if |args| > 1 {
      assert AllInC(args)[1..] == AllInC(args[1..]);
      ArgsSentence(args[1..]);
    }
  }

  /** Any arguments printed in C notation after a dot come back as the tokens of the line; of more
      than there are slots for, the first ones. */
  lemma RoundTrip(args: seq<Arg>, slots: nat)
    ensures Tokens("." + ArgsText(args), 1, slots) == if |args| <= slots then args else args[..slots]
  {
    ArgsSentence(args);
    assert Meant(AllInC(args)) == args;
    EverySpelling(AllInC(args), slots);
  }

  lemma TwoWords(u: string, x: string, v: string, y: string, slots: nat)
    requires Reads(u, x) && Reads(v, y) && slots >= 2
    ensures Tokens("." + (u + (" " + v)), 1, slots) == [x, y]
  {
    var first, second := Piece("", u, x), Piece(" ", v, y);
    assert [first, second][1..] == [second] && [second][1..] == [];
    EveryLine([first, second], "", slots);
    assert LineText([second], "") == " " + (v + "") == " " + v;
    assert LineText([first, second], "") == "" + (u + (" " + v)) == u + (" " + v);
    assert Values([second]) == [y];
  }

  lemma OneUnit(u: Unit)
    requires GoodUnit(u)
    ensures GoodUnits([u]) && UnitsText([u]) == UnitText(u) && UnitsBytes([u]) == [UnitByte(u)]
  {
    assert [u][1..] == [];
    assert UnitText(u) + "" == UnitText(u) && [UnitByte(u)] + "" == [UnitByte(u)];
  }

  /** Escapes work in bare words, too, as in .separator \t for a tab: a command's argument may be
      just an escape, without any quotes. */
  lemma EscapeArgument(name: string, c: char, slots: nat)
    requires Spellable(Spelling(name, AsItIs)) && c in NAMES && slots >= 2
    ensures Tokens("." + (name + (" " + [BACKSLASH, c])), 1, slots) == [name, [NAMES[c]]]
  {
    SpelledReads(Spelling(name, AsItIs));
    OneUnit(Named(c));
    CStrNulFree([NAMES[c]]);
    WordReads(Bare([Named(c)]), [BACKSLASH, c], [NAMES[c]]);
    TwoWords(name, name, [BACKSLASH, c], [NAMES[c]], slots);
  }
}
