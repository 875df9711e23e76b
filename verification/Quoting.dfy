/** The four places that quote text by doubling its quotes, and the reading that undoes them. */
module Quoting {
  import opened Wrappers
  import opened CString

  const SINGLE: char := '\''
  const DOUBLE: char := '"'

  function Quote(z: string, q: char): string {
    [q] + Doubled(z, q) + [q]
  }

  // ---------------------------------------------------------------- doubling and its inverse

  function Undoubled(s: string, q: char): string {
    if s == "" then ""
    else if s[0] == q && |s| > 1 && s[1] == q then [q] + Undoubled(s[2..], q)
    else [s[0]] + Undoubled(s[1..], q)
  }

  lemma {:induction false} DoublingUndone(z: string, q: char)
    ensures Undoubled(Doubled(z, q), q) == z
  {
    if z != "" {
      var d := Doubled(z, q);
      DoublingUndone(z[1..], q);
      if z[0] == q {
        assert d[2..] == Doubled(z[1..], q);
      } else {
        assert d[1..] == Doubled(z[1..], q);
      }
    }
  }

  lemma DoublingInjective(y: string, z: string, q: char)
    requires Doubled(y, q) == Doubled(z, q)
    ensures y == z
  {
    DoublingUndone(y, q);
    DoublingUndone(z, q);
  }

  function Occurrences(z: string, q: char): nat {
    if z == "" then 0 else (if z[0] == q then 1 else 0) + Occurrences(z[1..], q)
  }

  lemma {:induction false} DoubledLength(z: string, q: char)
    ensures |Doubled(z, q)| == |z| + Occurrences(z, q)
    ensures Occurrences(z, q) == 0 ==> Doubled(z, q) == z
  {
    if z != "" { DoubledLength(z[1..], q); }
  }

  lemma {:induction false} OccurrencesAppend(z: string, c: char, q: char)
    ensures Occurrences(z + [c], q) == Occurrences(z, q) + (if c == q then 1 else 0)
  {
    if z == "" {
      assert (z + [c])[1..] == "";
    } else {
      assert (z + [c])[1..] == z[1..] + [c];
      OccurrencesAppend(z[1..], c, q);
    }
  }

  lemma DoubledSnoc(z: string, i: nat, q: char)
    requires i < |z|
    ensures Doubled(z[..i + 1], q) == Doubled(z[..i], q) + (if z[i] == q then [q, q] else [z[i]])
    ensures Occurrences(z[..i + 1], q) == Occurrences(z[..i], q) + (if z[i] == q then 1 else 0)
  {
    assert z[..i + 1] == z[..i] + [z[i]];
    DoubledAppend(z[..i], [z[i]], q);
    DoubledOne(z[i], q);
    OccurrencesAppend(z[..i], z[i], q);
  }

  // ---------------------------------------------------------------- reading a quoted text

  /** The content of the quoted text whose opening quote is just before i, and where it ends. */
  function ReadQuoted(s: string, i: nat, q: char): (r: (string, nat))
    requires i <= |s|
    ensures i <= r.1 <= |s|
    decreases |s| - i
  {
    if i == |s| then ("", i)
    else if s[i] == q then
      if At(s, i + 1) == q && i + 1 < |s| then var (t, e) := ReadQuoted(s, i + 2, q); ([q] + t, e)
      else ("", i + 1)
    else var (t, e) := ReadQuoted(s, i + 1, q); ([s[i]] + t, e)
  }

  lemma {:induction false} ReadQuotedBack(s: string, i: nat, z: string, q: char)
    requires Holds(s, i, Doubled(z, q) + [q])
    requires i + |Doubled(z, q)| + 1 < |s| ==> s[i + |Doubled(z, q)| + 1] != q
    ensures ReadQuoted(s, i, q) == (z, i + |Doubled(z, q)| + 1)
    decreases |z|
  {
    var d := Doubled(z, q) + [q];
    HoldsAt(s, i, d, 0);
    if z != "" {
      var first, rest := Doubled([z[0]], q), Doubled(z[1..], q) + [q];
      DoubledFirst(z, q);
      DoubledOne(z[0], q);
      Regroup(first, Doubled(z[1..], q), [q]);
      HoldsParts(s, i, first, rest);
      HoldsAt(s, i, first, |first| - 1);
      assert |first| + |Doubled(z[1..], q)| == |Doubled(z, q)|;
      ReadQuotedBack(s, i + |first|, z[1..], q);
      assert [z[0]] + z[1..] == z;
    }
  }

  // ---------------------------------------------------------------- output_quoted_string

  lemma ChunkOut(out: string, s: string, i: nat)
    requires i <= |s| && (i < |s| ==> s[i] == SINGLE) && forall k :: 0 <= k < i ==> s[k] != SINGLE
    ensures i < |s| ==> out + s[..i] + [SINGLE, SINGLE] + Doubled(s[i + 1..], SINGLE) == out + Doubled(s, SINGLE)
    ensures i == |s| ==> out + s + "" == out + Doubled(s, SINGLE)
    ensures i == 0 ==> out + s[..i] == out
  {
    DoubledChunk(s, i);
    if i < |s| {
      Regroup(out, s[..i], [SINGLE, SINGLE] + Doubled(s[i + 1..], SINGLE));
      Regroup(out + s[..i], [SINGLE, SINGLE], Doubled(s[i + 1..], SINGLE));
    } else {
      assert s[..i] + "" == s;
    }
  }

  /** Prints text up to and including its first quote, or all of it. */
  method OutputChunk(out: string, text: string) returns (out': string, rest: string)
    requires text != ""
    ensures |rest| < |text| && out' + Doubled(rest, SINGLE) == out + Doubled(text, SINGLE)
  {
    var i := 0;
    while i < |text| && text[i] != SINGLE
      invariant 0 <= i <= |text| && forall k :: 0 <= k < i ==> text[k] != SINGLE
    {
      i := i + 1;
    }
    ChunkOut(out, text, i);
    if i == 0 {
      out', rest := out + [SINGLE, SINGLE], text[1..];
    } else if i < |text| {
      out', rest := out + text[..i] + [SINGLE, SINGLE], text[i + 1..];
    } else {
      out', rest := out + text, "";
    }
  }

  method OutputQuotedString(out: string, z: string) returns (out': string)
    ensures out' == out + Quote(z, SINGLE)
  {
    var nSingle := 0;
    for i := 0 to |z|
      invariant nSingle == Occurrences(z[..i], SINGLE)
    {
      DoubledSnoc(z, i, SINGLE);
      if z[i] == SINGLE { nSingle := nSingle + 1; }
    }
    assert z[..|z|] == z;
    if nSingle == 0 {
      DoubledLength(z, SINGLE);
      out' := out + [SINGLE] + z + [SINGLE];
    } else {
      out' := OutputChunks(out + [SINGLE], z);
      out' := out' + [SINGLE];
    }
  }

  method OutputChunks(out: string, z: string) returns (out': string)
    ensures out' == out + Doubled(z, SINGLE)
  {
    out' := out;
    var rest := z;
    while rest != ""
      invariant out' + Doubled(rest, SINGLE) == out + Doubled(z, SINGLE)
      decreases |rest|
    {
      out', rest := OutputChunk(out', rest);
    }
  }

  /** A stretch without quotes is copied; the quote after it is doubled. */
  lemma {:induction false} DoubledChunk(s: string, i: nat)
    requires i <= |s| && (i < |s| ==> s[i] == SINGLE) && forall k :: 0 <= k < i ==> s[k] != SINGLE
    ensures Doubled(s, SINGLE) == s[..i] + (if i < |s| then [SINGLE, SINGLE] + Doubled(s[i + 1..], SINGLE) else "")
  {
    if i > 0 {
      DoubledChunk(s[1..], i - 1);
      assert s[..i] == [s[0]] + s[1..][..i - 1];
      assert i < |s| ==> s[1..][i..] == s[i + 1..];
    }
  }

  // ---------------------------------------------------------------- set_table_name

  predicate IsAlpha(c: char) {
    'a' <= c <= 'z' || 'A' <= c <= 'Z'
  }

  predicate IsNameByte(c: char) {
    IsAlpha(c) || IsDigit(c) || c == '_'
  }

  /** A name is quoted unless it is an identifier. */
  predicate NeedsQuote(name: string) {
    name == "" || IsDigit(name[0]) || exists i :: 0 <= i < |name| && !IsNameByte(name[i])
  }

  function TableName(name: string): string {
    if NeedsQuote(name) then Quote(name, SINGLE) else name
  }

  lemma NoQuoteInIdentifier(name: string)
    requires !NeedsQuote(name)
    ensures Occurrences(name, SINGLE) == 0
  {
    NoOccurrence(name, SINGLE);
  }

  lemma {:induction false} NoOccurrence(z: string, q: char)
    requires forall i :: 0 <= i < |z| ==> z[i] != q
    ensures Occurrences(z, q) == 0
  {
    if z != "" { NoOccurrence(z[1..], q); }
  }

  /** Bytes of an identifier in SQL, and those it may start with. */
  predicate IsIdByte(c: char) {
    'A' <= c <= 'Z' || 'a' <= c <= 'z' || '0' <= c <= '9' || c == '_' || c == '$' || c as int >= 128
  }

  predicate StartsId(c: char) {
    IsIdByte(c) && c != '$' && !('0' <= c <= '9')
  }

  function IdEnd(s: string, i: nat): (e: nat)
    requires i <= |s|
    ensures i <= e <= |s|
    decreases |s| - i
  {
    if i < |s| && IsIdByte(s[i]) then IdEnd(s, i + 1) else i
  }

  /** A table name read from SQL text: a quoted text, or an identifier that is no keyword. */
  function ReadName(s: string, i: nat, keyword: string -> bool): Option<(string, nat)>
    requires i <= |s|
  {
    if i == |s| then None
    else if s[i] == SINGLE then Some(ReadQuoted(s, i + 1, SINGLE))
    else if StartsId(s[i]) && !keyword(s[i..IdEnd(s, i)]) then Some((s[i..IdEnd(s, i)], IdEnd(s, i)))
    else None
  }

  lemma {:induction false} IdEndIs(s: string, i: nat, e: nat)
    requires i <= e <= |s| && (forall k :: i <= k < e ==> IsIdByte(s[k])) && (e < |s| ==> !IsIdByte(s[e]))
    ensures IdEnd(s, i) == e
    decreases e - i
  {
    if i < e { IdEndIs(s, i + 1, e); }
  }

  /** Nothing that would go on with the name. */
  predicate Apart(rest: string) {
    rest != "" ==> !IsIdByte(rest[0]) && rest[0] != SINGLE
  }

  /** Letters, digits and underscores, no digit first. */
  predicate IsWord(w: string) {
    && w != "" && !('0' <= w[0] <= '9')
    && forall k :: 0 <= k < |w| ==> 'a' <= w[k] <= 'z' || 'A' <= w[k] <= 'Z' || '0' <= w[k] <= '9' || w[k] == '_'
  }

  lemma QuotedNameBack(name: string, rest: string, keyword: string -> bool)
    requires Apart(rest)
    ensures ReadName(Quote(name, SINGLE) + rest, 0, keyword) == Some((name, |Quote(name, SINGLE)|))
  {
    var s, d := Quote(name, SINGLE) + rest, Doubled(name, SINGLE) + [SINGLE];
    assert Quote(name, SINGLE) == [SINGLE] + d;
    assert s[1..1 + |d|] == d && (rest != "" ==> s[1 + |d|] == rest[0]);
    ReadQuotedBack(s, 1, name, SINGLE);
  }

  lemma WordBack(name: string, rest: string, keyword: string -> bool)
    requires IsWord(name) && Apart(rest)
    ensures ReadName(name + rest, 0, keyword) == if keyword(name) then None else Some((name, |name|))
  {
    var s := name + rest;
    assert forall k :: 0 <= k < |name| ==> s[k] == name[k];
    assert rest != "" ==> s[|name|] == rest[0];
    IdEndIs(s, 0, |name|);
    assert s[0..|name|] == name;
  }

  lemma PlainIsWord(name: string)
    ensures !NeedsQuote(name) <==> IsWord(name)
  {
  }

  /** The name set_table_name makes of a table's is read back as the table's, whatever that is and
      whatever follows it, if and only if it is no keyword: those are not quoted. */
  lemma TableNameBack(name: string, rest: string, keyword: string -> bool)
    requires Apart(rest) && forall w :: keyword(w) ==> IsWord(w)
    ensures ReadName(TableName(name) + rest, 0, keyword) == Some((name, |TableName(name)|)) <==> !keyword(name)
  {
    PlainIsWord(name);
    if NeedsQuote(name) {
      QuotedNameBack(name, rest, keyword);
    } else {
      WordBack(name, rest, keyword);
    }
  }

  /** Measures, allocates and fills: every byte allocated is written, and no other. */
  method SetTableName(zName: string) returns (z: array<char>)
    requires NulFree(zName)
    ensures z[..] == TableName(zName) + [NUL]
  {
    var needQuote := !(zName != "" && IsAlpha(zName[0])) && !(zName != "" && zName[0] == '_');
    var n := 0;
    for i := 0 to |zName|
      invariant n == i + Occurrences(zName[..i], SINGLE)
      invariant needQuote <==> (zName == "" || !(IsAlpha(zName[0]) || zName[0] == '_')) ||
                               exists k :: 0 <= k < i && !IsNameByte(zName[k])
    {
      DoubledSnoc(zName, i, SINGLE);
      if !IsNameByte(zName[i]) {
        needQuote := true;
        if zName[i] == SINGLE { n := n + 1; }
      }
      n := n + 1;
    }
    assert zName[..|zName|] == zName;
    assert needQuote == NeedsQuote(zName) by {
      if zName != "" && !IsDigit(zName[0]) && !(IsAlpha(zName[0]) || zName[0] == '_') {
        assert !IsNameByte(zName[0]);
      }
    }
    DoubledLength(zName, SINGLE);
    if !needQuote { NoQuoteInIdentifier(zName); }
    if needQuote { n := n + 2; }
    z := new char[n + 1];
    FillTableName(z, zName, needQuote);
  }

  /** Writes c at n, twice if it is q. */
  method PutDoubled(z: array<char>, ghost at: nat, n: nat, c: char, q: char) returns (end: nat)
    requires at <= n && n + |Doubled([c], q)| <= z.Length
    modifies z
    ensures end == n + |Doubled([c], q)| && z[at..end] == old(z[at..n]) + Doubled([c], q)
    ensures forall k :: 0 <= k < at || end <= k < z.Length ==> z[k] == old(z[k])
  {
    DoubledOne(c, q);
    ghost var before := z[at..n];
    z[n] := c;
    end := n + 1;
    assert z[at..end] == before + [c];
    if c == q {
      z[end] := q;
      end := end + 1;
      assert z[at..end] == before + [c] + [q];
    }
  }

  /** Writes text into z from at on, doubling q. */
  method FillDoubled(z: array<char>, at: nat, text: string, q: char) returns (n: nat)
    requires at + |Doubled(text, q)| <= z.Length
    modifies z
    ensures n == at + |Doubled(text, q)| && z[at..n] == Doubled(text, q)
    ensures forall k :: 0 <= k < at || n <= k < z.Length ==> z[k] == old(z[k])
  {
    n := at;
    assert text[0..] == text;
    for i := 0 to |text|
      invariant at <= n && n + |Doubled(text[i..], q)| == at + |Doubled(text, q)|
      invariant z[at..n] == Doubled(text[..i], q)
      invariant forall k :: 0 <= k < at || n <= k < z.Length ==> z[k] == old(z[k])
    {
      DoubledSnoc(text, i, q);
      DoubledOne(text[i], q);
      DoubledFirst(text[i..], q);
      assert text[i..][1..] == text[i + 1..];
      n := PutDoubled(z, at, n, text[i], q);
    }
    assert text[..|text|] == text;
  }

  method FillTableName(z: array<char>, zName: string, needQuote: bool)
    requires z.Length == |Doubled(zName, SINGLE)| + (if needQuote then 3 else 1)
    modifies z
    ensures z[..] == (if needQuote then Quote(zName, SINGLE) else Doubled(zName, SINGLE)) + [NUL]
  {
    var n := 0;
    if needQuote {
      z[n] := SINGLE;
      n := n + 1;
    }
    n := FillDoubled(z, n, zName, SINGLE);
    if needQuote {
      z[n] := SINGLE;
      n := n + 1;
    }
    z[n] := NUL;
    ghost var at := if needQuote then 1 else 0;
    assert z[at..at + |Doubled(zName, SINGLE)|] == Doubled(zName, SINGLE);
    assert z[..] == z[..at] + z[at..at + |Doubled(zName, SINGLE)|] + z[at + |Doubled(zName, SINGLE)|..];
  }

  // ---------------------------------------------------------------- FMDBEscapeSavePointName

  /** string::find: the first quote at or after pos, or the length. */
  method Find(s: string, pos: nat) returns (i: nat)
    requires pos <= |s|
    ensures pos <= i <= |s| && (i < |s| ==> s[i] == SINGLE)
    ensures forall k :: pos <= k < i ==> s[k] != SINGLE
  {
    i := pos;
    while i < |s| && s[i] != SINGLE
      invariant pos <= i <= |s| && forall k :: pos <= k < i ==> s[k] != SINGLE
    {
      i := i + 1;
    }
  }

  /** What is still to be done once the quotes before pos are doubled. */
  ghost predicate EscapedBefore(name: string, s: string, pos: nat) {
    pos <= |s| && (pos < |s| ==> s[pos] == SINGLE) &&
    Doubled(name, SINGLE) ==
      s[..pos] + (if pos < |s| then [SINGLE, SINGLE] + Doubled(s[pos + 1..], SINGLE) else "")
  }

  lemma InsertStep(name: string, s: string, pos: nat, i: nat)
    requires pos < |s| && EscapedBefore(name, s, pos)
    requires var tail := s[pos + 1..];
             i <= |tail| && (i < |tail| ==> tail[i] == SINGLE) && forall k :: 0 <= k < i ==> tail[k] != SINGLE
    ensures EscapedBefore(name, s[..pos] + [SINGLE] + s[pos..], pos + 2 + i)
  {
    var head, tail, next, two := s[..pos], s[pos + 1..], pos + 2 + i, [SINGLE, SINGLE];
    var s' := s[..pos] + [SINGLE] + s[pos..];
    DoubledChunk(tail, i);
    var left := if i < |tail| then two + Doubled(tail[i + 1..], SINGLE) else "";
    Regroup(head, two, Doubled(tail, SINGLE));
    Regroup(head + two, tail[..i], left);
    Inserted(s, pos, i);
  }

  lemma Inserted(s: string, pos: nat, i: nat)
    requires pos < |s| && s[pos] == SINGLE && i <= |s[pos + 1..]|
    ensures var s', next := s[..pos] + [SINGLE] + s[pos..], pos + 2 + i;
            && next <= |s'| && s'[..next] == s[..pos] + [SINGLE, SINGLE] + s[pos + 1..][..i]
            && (next < |s'| ==> s'[next] == s[pos + 1..][i] && s'[next + 1..] == s[pos + 1..][i + 1..])
  {
  }

  /** Inserts a quote at pos and finds the next one to double. */
  method InsertQuote(s: string, pos: nat, ghost name: string) returns (s': string, next: nat)
    requires pos < |s| && EscapedBefore(name, s, pos)
    ensures EscapedBefore(name, s', next) && |s'| - next < |s| - pos
  {
    s' := s[..pos] + [SINGLE] + s[pos..];
    next := Find(s', pos + 2);
    assert s[pos + 1..] == s'[pos + 2..];
    InsertStep(name, s, pos, next - pos - 2);
  }

  method EscapeSavePointName(name: string) returns (s: string)
    ensures s == Doubled(name, SINGLE)
  {
    s := name;
    var pos: nat := Find(s, 0);
    DoubledChunk(s, pos);
    while pos < |s|
      invariant EscapedBefore(name, s, pos)
      decreases |s| - pos
    {
      s, pos := InsertQuote(s, pos, name);
    }
    assert s[..pos] == s;
  }

  // ---------------------------------------------------------------- appendText

  /** A piece of text: quoted if quote is not NUL. */
  datatype Piece = Piece(text: string, quote: char)

  function PieceText(p: Piece): string {
    if p.quote == NUL then p.text else Quote(p.text, p.quote)
  }

  method Measure(zAppend: string, quote: char, nIn: nat) returns (len: nat)
    ensures len == nIn + |PieceText(Piece(zAppend, quote))| + 1
  {
    len := |zAppend| + nIn + 1;
    if quote != NUL {
      len := len + 2;
      for i := 0 to |zAppend|
        invariant len == |zAppend| + nIn + 3 + Occurrences(zAppend[..i], quote)
      {
        DoubledSnoc(zAppend, i, quote);
        if zAppend[i] == quote { len := len + 1; }
      }
      assert zAppend[..|zAppend|] == zAppend;
    }
    DoubledLength(zAppend, quote);
  }

  /** Where strlen30 cuts lengths, and where an int overflows. */
  const CUT: nat := 0x4000_0000
  const INT_LIMIT: nat := 0x8000_0000

  /** Reallocates to the measured length and fills; the new buffer has no room to spare. */
  method AppendText(zIn: array?<char>, ghost s: string, zAppend: string, quote: char) returns (z: array<char>)
    requires NulFree(zAppend) && |zAppend| < CUT && NulFree(s) && |s| < CUT
    requires |s| + |PieceText(Piece(zAppend, quote))| + 1 < INT_LIMIT
    requires if zIn == null then s == "" else zIn[..] == s + [NUL]
    ensures fresh(z) && z[..] == s + PieceText(Piece(zAppend, quote)) + [NUL]
  {
    var nIn := if zIn == null then 0 else zIn.Length - 1;
    assert nIn == |s|;
    var len := Measure(zAppend, quote, nIn);
    z := new char[len];
    for i := 0 to nIn
      invariant z[..i] == s[..i]
    {
      z[i] := zIn[i];
    }
    assert z[..nIn] == s;
    FillPiece(z, nIn, zAppend, quote);
    assert z[..] == z[..nIn] + z[nIn..];
  }

  method FillPiece(z: array<char>, nIn: nat, zAppend: string, quote: char)
    requires z.Length == nIn + |PieceText(Piece(zAppend, quote))| + 1
    modifies z
    ensures z[..nIn] == old(z[..nIn]) && z[nIn..] == PieceText(Piece(zAppend, quote)) + [NUL]
  {
    if quote != NUL {
      FillQuoted(z, nIn, zAppend, quote);
    } else {
      for i := 0 to |zAppend|
        invariant z[..nIn] == old(z[..nIn]) && z[nIn..nIn + i] == zAppend[..i]
      {
        z[nIn + i] := zAppend[i];
      }
      z[z.Length - 1] := NUL;
    }
  }

  method FillQuoted(z: array<char>, nIn: nat, zAppend: string, quote: char)
    requires z.Length == nIn + |Quote(zAppend, quote)| + 1
    modifies z
    ensures z[..nIn] == old(z[..nIn]) && z[nIn..] == Quote(zAppend, quote) + [NUL]
  {
    z[nIn] := quote;
    var csr := FillDoubled(z, nIn + 1, zAppend, quote);
    z[csr] := quote;
    csr := csr + 1;
    z[csr] := NUL;
    csr := csr + 1;
    assert z[nIn + 1..csr - 2] == Doubled(zAppend, quote);
  }

  function PiecesText(pieces: seq<Piece>): string {
    if pieces == [] then "" else PiecesText(pieces[..|pieces| - 1]) + PieceText(pieces[|pieces| - 1])
  }

  lemma {:induction false} DoubledNulFree(z: string, q: char)
    requires NulFree(z)
    ensures NulFree(Doubled(z, q))
  {
    if z != "" { DoubledNulFree(z[1..], q); }
  }

  lemma PiecesMore(pieces: seq<Piece>, n: nat)
    requires n < |pieces|
    ensures PiecesText(pieces[..n + 1]) == PiecesText(pieces[..n]) + PieceText(pieces[n])
  {
    assert pieces[..n + 1][..n] == pieces[..n];
  }

  /** Call n is given lengths that neither strlen30 nor an int cuts short. */
  predicate InRange(pieces: seq<Piece>, n: nat)
    requires n < |pieces|
  {
    var before := |PiecesText(pieces[..n])|;
    |pieces[n].text| < CUT && before < CUT && before + |PieceText(pieces[n])| + 1 < INT_LIMIT
  }

  predicate Buildable(pieces: seq<Piece>) {
    (forall p <- pieces :: NulFree(p.text)) && forall n :: 0 <= n < |pieces| ==> InRange(pieces, n)
  }

  lemma {:induction false} PiecesNulFree(pieces: seq<Piece>)
    requires forall p <- pieces :: NulFree(p.text)
    ensures NulFree(PiecesText(pieces))
  {
    if pieces != [] {
      DoubledNulFree(pieces[|pieces| - 1].text, pieces[|pieces| - 1].quote);
      PiecesNulFree(pieces[..|pieces| - 1]);
    }
  }

  /** Any sequence of calls builds the concatenation of the pieces, in exactly the measured length. */
  method AppendPieces(pieces: seq<Piece>) returns (z: array?<char>)
    requires Buildable(pieces)
    ensures if pieces == [] then z == null else z != null && z[..] == PiecesText(pieces) + [NUL]
  {
    z := null;
    for n := 0 to |pieces|
      invariant if n == 0 then z == null else z != null && z[..] == PiecesText(pieces[..n]) + [NUL]
    {
      assert InRange(pieces, n);
      PiecesNulFree(pieces[..n]);
      PiecesMore(pieces, n);
      z := AppendText(z, PiecesText(pieces[..n]), pieces[n].text, pieces[n].quote);
    }
    assert pieces[..|pieces|] == pieces;
  }

  // ---------------------------------------------------------------- the dump query

  /** The pieces of the query that dumps a table, up to the name quoted twice over. */
  function DumpHead(table: string): seq<Piece> {
    [Piece("SELECT 'INSERT INTO ' || ", NUL), Piece(Quote(table, DOUBLE), SINGLE), Piece(" || ' VALUES(' || ", NUL)]
  }

  const BEFORE := "SELECT 'INSERT INTO ' || "
  const AFTER := " || ' VALUES(' || "

  lemma DumpHeadText(table: string)
    ensures PiecesText(DumpHead(table)) == BEFORE + Quote(Quote(table, DOUBLE), SINGLE) + AFTER
  {
    var p := DumpHead(table);
    assert p[..2] == [p[0], p[1]] && p[..2][..1] == [p[0]] && [p[0]][..0] == [];
    assert PiecesText([p[0]]) == "" + BEFORE;
  }

  /** Reading the literal in the query, and then the identifier in the literal, gives the table's
      name, whatever it is. */
  lemma DumpedNameReadBack(table: string, rest: string)
    ensures var s := BEFORE + Quote(Quote(table, DOUBLE), SINGLE) + AFTER + rest;
            var (literal, _) := ReadQuoted(s, |BEFORE| + 1, SINGLE);
            && s[|BEFORE|] == SINGLE && literal == Quote(table, DOUBLE)
            && ReadQuoted(literal, 1, DOUBLE) == (table, |literal|)
  {
    var literal, n := Quote(table, DOUBLE), |BEFORE| + 1;
    var d := Doubled(literal, SINGLE) + [SINGLE];
    var s := BEFORE + Quote(literal, SINGLE) + AFTER + rest;
    assert Quote(literal, SINGLE) == [SINGLE] + d;
    assert s[n..n + |d|] == d && s[n + |d|] == AFTER[0];
    ReadQuotedBack(s, n, literal, SINGLE);
    var e := Doubled(table, DOUBLE) + [DOUBLE];
    assert literal[1..1 + |e|] == e;
    ReadQuotedBack(literal, 1, table, DOUBLE);
  }

  /** The query under construction holds the name so that it can be read back, whatever it is. */
  method BuildDumpHead(table: string) returns (z: array?<char>)
    requires NulFree(table) && Buildable(DumpHead(table))
    ensures z != null && |BEFORE| < z.Length && z[|BEFORE|] == SINGLE
    ensures var (literal, _) := ReadQuoted(z[..], |BEFORE| + 1, SINGLE);
            literal != "" && ReadQuoted(literal, 1, DOUBLE) == (table, |literal|)
  {
    z := AppendPieces(DumpHead(table));
    DumpHeadText(table);
    DumpedNameReadBack(table, [NUL]);
  }
}
