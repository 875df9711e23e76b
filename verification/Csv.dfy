/** MODE_Csv output and .import of CSV: the reader undoes the writer. */
module Csv {
  import opened Wrappers
  import opened CString

  const QUOTE: char := '"'
  const CR: char := '\r'
  const LF: char := '\n'

  // ---------------------------------------------------------------- writing

  /** The table needCsvQuote. */
  predicate NeedsQuote(c: char) {
    c <= ' ' || c == QUOTE || c == '\'' || c as int >= 127
  }

  predicate ForcesQuotes(z: string, sep: string, i: nat)
    requires i < |z|
  {
    NeedsQuote(z[i]) || (sep != "" && z[i] == sep[0] && (|sep| == 1 || sep <= z))
  }

  predicate Quoted(z: string, sep: string) {
    z == "" || exists i :: 0 <= i < |z| && ForcesQuotes(z, sep, i)
  }

  function FieldText(z: string, sep: string): string {
    if Quoted(z, sep) then [QUOTE] + Doubled(z, QUOTE) + [QUOTE] else z
  }

  function RowText(row: seq<string>, sep: string, rsep: string): string {
    if row == [] then ""
    else if |row| == 1 then FieldText(row[0], sep) + rsep
    else FieldText(row[0], sep) + sep + RowText(row[1..], sep, rsep)
  }

  function TableText(rows: seq<seq<string>>, sep: string, rsep: string): string {
    if rows == [] then "" else RowText(rows[0], sep, rsep) + TableText(rows[1..], sep, rsep)
  }

  lemma RowTextStep(row: seq<string>, i: nat, sep: string, rsep: string) returns (rest: string)
    requires i < |row|
    ensures RowText(row[i..], sep, rsep) == FieldText(row[i], sep) + (if i < |row| - 1 then sep else "") + rest
    ensures rest == if i < |row| - 1 then RowText(row[i + 1..], sep, rsep) else rsep
  {
    assert row[i..][1..] == row[i + 1..];
    rest := if i < |row| - 1 then RowText(row[i + 1..], sep, rsep) else rsep;
  }

  /** Bytes that never call for quotes: printable ASCII but for blanks and either quote. */
  predicate Harmless(c: char) {
    '!' <= c <= '~' && c != '"' && c != '\''
  }

  /** A field is written as it is if and only if it has no byte that calls for quotes, no separator,
      and is not empty. */
  lemma WrittenAsIs(z: string, sep: char)
    ensures FieldText(z, [sep]) == z <==> z != "" && forall i :: 0 <= i < |z| ==> Harmless(z[i]) && z[i] != sep
  {
    if Quoted(z, [sep]) {
      DoubledNoShorter(z);
    }
    if z != "" && forall i :: 0 <= i < |z| ==> Harmless(z[i]) && z[i] != sep {
      forall i | 0 <= i < |z| ensures !ForcesQuotes(z, [sep], i) {
        assert Harmless(z[i]) && z[i] != sep;
      }
    } else if z != "" {
      var i :| 0 <= i < |z| && !(Harmless(z[i]) && z[i] != sep);
      assert ForcesQuotes(z, [sep], i);
    }
  }

  lemma {:induction false} DoubledNoShorter(z: string)
    ensures |Doubled(z, QUOTE)| >= |z|
  {
    if z != "" { DoubledNoShorter(z[1..]); }
  }

  class Shell {
    var out: string
    var colSeparator: string
    var rowSeparator: string
    var nullValue: string

    constructor (colSeparator: string, rowSeparator: string, nullValue: string)
      ensures out == "" && this.colSeparator == colSeparator && this.rowSeparator == rowSeparator
      ensures this.nullValue == nullValue
    {
      out, this.colSeparator, this.rowSeparator, this.nullValue := "", colSeparator, rowSeparator, nullValue;
    }

    method OutputCsv(z: Option<string>, bSep: bool)
      requires z.Some? ==> NulFree(z.value)
      modifies `out
      ensures out == old(out) + (if z.None? then nullValue else FieldText(z.value, colSeparator)) +
                     (if bSep then colSeparator else "")
    {
      if z.None? {
        out := out + nullValue;
      } else {
        var t, i, force := z.value, 0, false;
        while i < |t|
          invariant 0 <= i <= |t|
          invariant !force && forall j :: 0 <= j < i ==> !ForcesQuotes(t, colSeparator, j)
        {
          if NeedsQuote(t[i]) ||
             (colSeparator != "" && t[i] == colSeparator[0] && (|colSeparator| == 1 || colSeparator <= t))
          {
            assert ForcesQuotes(t, colSeparator, i);
            i, force := 0, true;
            break;
          }
          i := i + 1;
        }
        if i == 0 {
          OutputQuoted(t);
        } else {
          out := out + t;
        }
      }
      if bSep {
        out := out + colSeparator;
      }
    }

    method OutputQuoted(t: string)
      modifies `out
      ensures out == old(out) + ([QUOTE] + Doubled(t, QUOTE) + [QUOTE])
    {
      out := out + [QUOTE];
      for i := 0 to |t|
        invariant out == old(out) + [QUOTE] + Doubled(t[..i], QUOTE)
      {
        assert t[..i + 1] == t[..i] + [t[i]];
        DoubledAppend(t[..i], [t[i]], QUOTE);
        if t[i] == QUOTE {
          out := out + [QUOTE];
        }
        out := out + [t[i]];
      }
      assert t[..|t|] == t;
      out := out + [QUOTE];
    }

    /** shell_callback in MODE_Csv, for a row of the result. */
    method OutputRow(row: seq<string>)
      requires forall i :: 0 <= i < |row| ==> NulFree(row[i])
      modifies `out
      ensures out == old(out) + RowText(row, colSeparator, rowSeparator)
    {
      ghost var before := out;
      for i := 0 to |row|
        invariant i < |row| ==> out + RowText(row[i..], colSeparator, rowSeparator) ==
                                before + RowText(row, colSeparator, rowSeparator)
        invariant i == |row| > 0 ==> out + rowSeparator == before + RowText(row, colSeparator, rowSeparator)
        invariant row == [] ==> out == before
      {
        ghost var was, field := out, FieldText(row[i], colSeparator);
        ghost var rest := RowTextStep(row, i, colSeparator, rowSeparator);
        OutputCsv(Some(row[i]), i < |row| - 1);
        if i < |row| - 1 {
          Regroup(was, field, colSeparator);
          Regroup(was, field + colSeparator, rest);
        } else {
          Regroup(was, field, "");
          Regroup(was, field + "", rowSeparator);
        }
      }
      if |row| > 0 {
        out := out + rowSeparator;
      }
    }

    method OutputTable(rows: seq<seq<string>>)
      requires forall i, j :: 0 <= i < |rows| && 0 <= j < |rows[i]| ==> NulFree(rows[i][j])
      modifies `out
      ensures out == old(out) + TableText(rows, colSeparator, rowSeparator)
    {
      ghost var before := out;
      for i := 0 to |rows|
        invariant out + TableText(rows[i..], colSeparator, rowSeparator) ==
                  before + TableText(rows, colSeparator, rowSeparator)
      {
        ghost var was, row := out, RowText(rows[i], colSeparator, rowSeparator);
        ghost var rest := TableText(rows[i + 1..], colSeparator, rowSeparator);
        assert rows[i..][1..] == rows[i + 1..];
        assert TableText(rows[i..], colSeparator, rowSeparator) == row + rest;
        OutputRow(rows[i]);
        assert was + row + rest == was + (row + rest);
      }
    }
  }

  // ---------------------------------------------------------------- reading

  const EOF: int := -1

  datatype Message =
    | Unescaped(line: nat)
    | Unterminated(line: nat)
    | TooFew(line: nat, found: nat)
    | TooMany(line: nat, found: nat)

  /** Where the reader stands: the next byte, the line number, what ended the last field, and what
      has been said on stderr. */
  datatype Cursor = Cursor(pos: nat, line: nat, term: int, log: seq<Message>)

  function CharAt(s: string, pos: nat): int {
    if pos < |s| then s[pos] as int else EOF
  }

  function Advance(s: string, pos: nat): nat {
    if pos < |s| then pos + 1 else pos
  }

  predicate Separates(c: int, sep: char, rsep: char) {
    c == EOF || c == sep as int || c == rsep as int
  }

  function PlainEnd(s: string, i: nat, sep: char, rsep: char): (e: nat)
    requires i <= |s|
    ensures i <= e <= |s| && Separates(CharAt(s, e), sep, rsep)
    ensures forall k :: i <= k < e ==> !Separates(CharAt(s, k), sep, rsep)
    decreases |s| - i
  {
    if Separates(CharAt(s, i), sep, rsep) then i else PlainEnd(s, i + 1, sep, rsep)
  }

  /** A field that does not start with a quote. */
  function PlainField(s: string, k: Cursor, sep: char, rsep: char): (r: (string, Cursor))
    requires k.pos <= |s|
    ensures k.pos <= r.1.pos <= |s| && (r.1.term == EOF ==> r.1.pos == |s|)
    ensures k.pos < |s| ==> k.pos < r.1.pos
  {
    var e := PlainEnd(s, k.pos, sep, rsep);
    var c := CharAt(s, e);
    var text := s[k.pos..e];
    var row := c == rsep as int;
    (if row && text != "" && text[|text| - 1] == CR then text[..|text| - 1] else text,
     Cursor(Advance(s, e), if row then k.line + 1 else k.line, c, k.log))
  }

  /** text without its last quote and what follows it. */
  function CutAtQuote(text: string): string {
    if text == "" then ""
    else if text[|text| - 1] == QUOTE then text[..|text| - 1]
    else CutAtQuote(text[..|text| - 1])
  }

  /** Whether c ends a quoted field, given the two bytes before it. */
  predicate EndsQuoted(c: int, pc: char, ppc: char, sep: char, rsep: char) {
    || (pc == QUOTE && (c == sep as int || c == rsep as int || c == EOF))
    || (c == rsep as int && pc == CR && ppc == QUOTE)
  }

  /** A quoted field from k on, with acc read so far and pc and ppc the last two bytes. */
  function QuotedField(s: string, k: Cursor, acc: string, pc: char, ppc: char, start: nat, sep: char, rsep: char)
    : (r: (string, Cursor))
    requires k.pos <= |s|
    ensures k.pos <= r.1.pos <= |s| && (r.1.term == EOF ==> r.1.pos == |s|)
    decreases |s| - k.pos
  {
    var c := CharAt(s, k.pos);
    var line := if c == rsep as int then k.line + 1 else k.line;
    if c == QUOTE as int && pc == QUOTE then
      QuotedField(s, k.(pos := k.pos + 1, line := line), acc, NUL, ppc, start, sep, rsep)
    else if EndsQuoted(c, pc, ppc, sep, rsep) then
      (CutAtQuote(acc), Cursor(Advance(s, k.pos), line, c, k.log))
    else
      var log := if pc == QUOTE && c != CR as int then k.log + [Unescaped(line)] else k.log;
      if c == EOF then (acc, Cursor(k.pos, line, EOF, log + [Unterminated(start)]))
      else QuotedField(s, Cursor(k.pos + 1, line, k.term, log), acc + [s[k.pos]], s[k.pos], pc, start, sep, rsep)
  }

  /** csv_read_one_field: None at the end of the input. */
  function ReadField(s: string, k: Cursor, sep: char, rsep: char): (r: (Option<string>, Cursor))
    requires k.pos <= |s|
    ensures k.pos <= r.1.pos <= |s| && (r.1.term == EOF ==> r.1.pos == |s|)
    ensures k.pos < |s| ==> r.0.Some? && k.pos < r.1.pos
    ensures k.pos == |s| ==> r.0.None? && r.1.term == EOF
  {
    if k.pos == |s| then (None, k.(term := EOF))
    else
      var (text, k') := if s[k.pos] == QUOTE
                        then QuotedField(s, k.(pos := k.pos + 1), "", NUL, NUL, k.line, sep, rsep)
                        else PlainField(s, k, sep, rsep);
      (Some(CStr(text)), k')
  }

  // The import loop, for a table of width columns.

  type Row = seq<Option<string>>

  datatype Progress = Progress(k: Cursor, binds: Row, i: nat)

  function Nulls(n: nat): (r: Row)
    ensures |r| == n && forall k :: 0 <= k < n ==> r[k] == None
  {
    seq(n, _ => None)
  }

  /** The columns of one row from column i on.  Bindings not made keep their last value; a row that
      ends early has the rest bound to NULL. */
  function FieldLoop(s: string, k: Cursor, binds: Row, i: nat, start: nat, sep: char, rsep: char): (r: Progress)
    requires k.pos <= |s| && i <= |binds|
    ensures k.pos <= r.k.pos <= |s| && |r.binds| == |binds|
    ensures i == 0 < |binds| && k.pos < |s| ==> k.pos < r.k.pos
    ensures i == 0 < |binds| && k.pos == |s| ==> r.k.term == EOF
    ensures (i < |binds| || k.term != EOF || k.pos == |s|) && r.k.term == EOF ==> r.k.pos == |s|
    decreases |binds| - i
  {
    if i == |binds| then Progress(k, binds, i)
    else
      var (field, k1) := ReadField(s, k, sep, rsep);
      if field.None? && i == 0 then Progress(k1, binds, 0)
      else
        var b := binds[i := field];
        if i < |binds| - 1 && k1.term != sep as int then
          Progress(k1.(log := k1.log + [TooFew(start, i + 1)]), b[..i + 1] + Nulls(|b| - i - 1), |b| + 2)
        else FieldLoop(s, k1, b, i + 1, start, sep, rsep)
  }

  lemma FieldLoopStep(s: string, k: Cursor, binds: Row, i: nat, start: nat, sep: char, rsep: char,
                      field: Option<string>, k1: Cursor)
    requires k.pos <= |s| && i < |binds| && (field, k1) == ReadField(s, k, sep, rsep)
    ensures FieldLoop(s, k, binds, i, start, sep, rsep) ==
            if field.None? && i == 0 then Progress(k1, binds, 0)
            else if i < |binds| - 1 && k1.term != sep as int then
              Progress(k1.(log := k1.log + [TooFew(start, i + 1)]),
                       binds[i := field][..i + 1] + Nulls(|binds| - i - 1), |binds| + 2)
            else FieldLoop(s, k1, binds[i := field], i + 1, start, sep, rsep)
  {
  }

  /** Reads and ignores fields until one is not followed by another. */
  function SkipExtras(s: string, k: Cursor, i: nat, sep: char, rsep: char): (r: (Cursor, nat))
    requires k.pos <= |s|
    ensures k.pos <= r.0.pos <= |s| && (r.0.term == EOF ==> r.0.pos == |s|) && r.0.term != sep as int && r.1 > i
    decreases |s| - k.pos
  {
    var (_, k1) := ReadField(s, k, sep, rsep);
    if k1.term == sep as int then SkipExtras(s, k1, i + 1, sep, rsep) else (k1, i + 1)
  }

  function ReadRow(s: string, k: Cursor, binds: Row, sep: char, rsep: char): (r: Progress)
    requires k.pos <= |s| && binds != []
    ensures k.pos <= r.k.pos <= |s| && |r.binds| == |binds|
    ensures r.k.term != EOF ==> k.pos < r.k.pos
  {
    var p := FieldLoop(s, k, binds, 0, k.line, sep, rsep);
    if p.k.term == sep as int then
      var (k1, i) := SkipExtras(s, p.k, p.i, sep, rsep);
      Progress(k1.(log := k1.log + [TooMany(k.line, i)]), p.binds, i)
    else p
  }

  /** The rows inserted, after those inserted already, and where the reader ends up. */
  function ImportRows(s: string, k: Cursor, binds: Row, rows: seq<Row>, sep: char, rsep: char): (seq<Row>, Cursor)
    requires k.pos <= |s| && binds != []
    decreases |s| - k.pos
  {
    var p := ReadRow(s, k, binds, sep, rsep);
    var rows' := if p.i >= |binds| then rows + [p.binds] else rows;
    if p.k.term == EOF then (rows', p.k) else ImportRows(s, p.k, p.binds, rows', sep, rsep)
  }

  class ImportCtx {
    const input: string
    var pos: nat
    var z: array?<char>
    var n: nat
    var nLine: nat
    var cTerm: int
    const cColSep: char
    const cRowSep: char
    var log: seq<Message>

    ghost predicate Valid()
      reads this, z
    {
      pos <= |input| && (if z == null then n == 0 else n < z.Length)
    }

    ghost function Contents(): string
      requires Valid()
      reads this, z
    {
      if z == null then "" else z[..n]
    }

    ghost function Now(): Cursor
      reads this
    {
      Cursor(pos, nLine, cTerm, log)
    }

    constructor (input: string, sep: char, rsep: char)
      ensures Valid() && this.input == input && cColSep == sep && cRowSep == rsep
      ensures Now() == Cursor(0, 1, 0, []) && z == null
    {
      this.input, cColSep, cRowSep := input, sep, rsep;
      pos, z, n, nLine, cTerm, log := 0, null, 0, 1, 0, [];
    }

    method ImportAppendChar(c: char)
      requires Valid()
      modifies `z, `n, z
      ensures Valid() && z != null && Contents() == old(Contents()) + [c]
      ensures z == old(z) || fresh(z)
    {
      if z == null || n + 1 >= z.Length {
        var nAlloc := if z == null then 0 else z.Length;
        var bigger := new char[2 * nAlloc + 100];
        if z != null {
          for i := 0 to n
            invariant forall j :: 0 <= j < i ==> bigger[j] == z[j]
            modifies bigger
          {
            bigger[i] := z[i];
          }
        }
        z := bigger;
      }
      z[n] := c;
      n := n + 1;
    }

    method Fgetc() returns (c: int)
      requires Valid()
      modifies `pos
      ensures Valid() && c == CharAt(input, old(pos)) && pos == Advance(input, old(pos))
    {
      if pos < |input| {
        c := input[pos] as int;
        pos := pos + 1;
      } else {
        c := EOF;
      }
    }

    /** Drops bytes from the end up to and including a quote. */
    method CutQuote()
      requires Valid() && z != null && exists k :: 0 <= k < n && z[k] == QUOTE
      modifies `n
      ensures Valid() && Contents() == CutAtQuote(old(Contents()))
    {
      ghost var whole := Contents();
      n := n - 1;
      assert whole[..n + 1] == whole;
      while z[n] != QUOTE
        invariant n < z.Length && n < |whole| && z[..|whole|] == whole
        invariant CutAtQuote(whole) == CutAtQuote(whole[..n + 1])
        invariant exists k :: 0 <= k <= n && z[k] == QUOTE
        decreases n
      {
        assert whole[..n + 1][..n] == whole[..n];
        n := n - 1;
      }
      assert whole[..n + 1][..n] == whole[..n];
    }

    /** One pass of the loop over a quoted field. */
    method QuotedByte(pc: char, ppc: char, startLine: nat) returns (more: bool, pc': char, ppc': char)
      requires Valid() && z != null
      requires pc == QUOTE ==> n > 0 && z[n - 1] == QUOTE
      requires pc == CR && ppc == QUOTE ==> n > 1 && z[n - 2] == QUOTE
      modifies this, z
      ensures Valid() && z != null && (z == old(z) || fresh(z))
      ensures QuotedField(input, old(Now()), old(Contents()), pc, ppc, startLine, cColSep, cRowSep) ==
              if more then QuotedField(input, Now(), Contents(), pc', ppc', startLine, cColSep, cRowSep)
              else (Contents(), Now())
      ensures more ==> pos > old(pos)
      ensures more && pc' == QUOTE ==> n > 0 && z[n - 1] == QUOTE
      ensures more && pc' == CR && ppc' == QUOTE ==> n > 1 && z[n - 2] == QUOTE
    {
      more, pc', ppc' := false, pc, ppc;
      var c := Fgetc();
      if c == cRowSep as int { nLine := nLine + 1; }
      if c == QUOTE as int && pc == QUOTE {
        return true, NUL, ppc;
      }
      if EndsQuoted(c, pc, ppc, cColSep, cRowSep) {
        CutQuote();
        cTerm := c;
        return;
      }
      if pc == QUOTE && c != CR as int {
        log := log + [Unescaped(nLine)];
      }
      if c == EOF {
        log := log + [Unterminated(startLine)];
        cTerm := c;
        return;
      }
      KeepByte(c as char);
      return true, c as char, pc;
    }

    /** The byte kept comes after what was there before. */
    method KeepByte(c: char)
      requires Valid() && z != null
      modifies `z, `n, z
      ensures Valid() && z != null && (z == old(z) || fresh(z)) && Contents() == old(Contents()) + [c]
      ensures n == old(n) + 1 && z[n - 1] == c && (n > 1 ==> z[n - 2] == old(z[n - 1]))
    {
      ghost var acc := Contents();
      ImportAppendChar(c);
      assert n == |Contents()|;
      assert forall i :: 0 <= i < n ==> z[i] == (acc + [c])[i];
    }

    method ReadQuoted()
      requires Valid() && z != null && n == 0
      modifies this, z
      ensures Valid() && z != null && (z == old(z) || fresh(z))
      ensures var (text, k) := QuotedField(input, old(Now()), "", NUL, NUL, old(nLine), cColSep, cRowSep);
              Contents() == text && Now() == k
    {
      ghost var goal := QuotedField(input, Now(), "", NUL, NUL, nLine, cColSep, cRowSep);
      var pc, ppc, startLine, more := NUL, NUL, nLine, true;
      assert Contents() == "";
      while more
        invariant Valid() && z != null && (z == old(z) || fresh(z))
        invariant goal == if more then QuotedField(input, Now(), Contents(), pc, ppc, startLine, cColSep, cRowSep)
                          else (Contents(), Now())
        invariant more && pc == QUOTE ==> n > 0 && z[n - 1] == QUOTE
        invariant more && pc == CR && ppc == QUOTE ==> n > 1 && z[n - 2] == QUOTE
        decreases more, |input| - pos
      {
        more, pc, ppc := QuotedByte(pc, ppc, startLine);
      }
    }

    /** Reads up to the first separator or the end; c is what was read there. */
    method ScanPlain() returns (c: int, ghost at: nat)
      requires Valid() && z != null && n == 0 && pos < |input|
      modifies this, z
      ensures Valid() && z != null && (z == old(z) || fresh(z)) && nLine == old(nLine) && log == old(log)
      ensures at == PlainEnd(input, old(pos), cColSep, cRowSep) && Contents() == input[old(pos)..at]
      ensures c == CharAt(input, at) && pos == Advance(input, at)
    {
      ghost var start := pos;
      at := start;
      c := Fgetc();
      while !Separates(c, cColSep, cRowSep)
        invariant Valid() && z != null && (z == old(z) || fresh(z))
        invariant start <= at <= |input| && c == CharAt(input, at) && pos == Advance(input, at)
        invariant Contents() == input[start..at]
        invariant PlainEnd(input, start, cColSep, cRowSep) == PlainEnd(input, at, cColSep, cRowSep)
        invariant nLine == old(nLine) && log == old(log)
        decreases |input| - at
      {
        assert input[start..at + 1] == input[start..at] + [input[at]];
        ImportAppendChar(c as char);
        c := Fgetc();
        at := at + 1;
      }
    }

    method ReadPlain()
      requires Valid() && z != null && n == 0 && pos < |input|
      modifies this, z
      ensures Valid() && z != null && (z == old(z) || fresh(z))
      ensures var (text, k) := PlainField(input, old(Now()), cColSep, cRowSep);
              Contents() == text && Now() == k
    {
      var c;
      ghost var at;
      c, at := ScanPlain();
      if c == cRowSep as int {
        nLine := nLine + 1;
        if n > 0 && z[n - 1] == CR { n := n - 1; }
      }
      cTerm := c;
    }

    /** None at the end of the input; otherwise the field, as a C string. */
    method CsvReadOneField() returns (field: Option<string>)
      requires Valid() && z != null
      modifies this, z
      ensures Valid() && z != null && (z == old(z) || fresh(z))
      ensures (field, Now()) == ReadField(input, old(Now()), cColSep, cRowSep)
    {
      n := 0;
      if pos == |input| {
        cTerm := EOF;
        return None;
      }
      if input[pos] == QUOTE {
        var _ := Fgetc();
        ReadQuoted();
      } else {
        ReadPlain();
      }
      field := Some(CStr(z[..n]));
      z[n] := NUL;
    }

    /** Binds NULL to the columns from i on. */
    method BindNulls(bound: Row, i: nat) returns (binds: Row)
      requires i <= |bound|
      ensures binds == bound[..i] + Nulls(|bound| - i)
    {
      binds := bound;
      for j := i to |bound|
        invariant binds == bound[..i] + Nulls(j - i) + bound[j..]
      {
        binds := binds[j := None];
      }
    }

    /** Reads one field into column i, and gives up the row if it is too short. */
    method ReadColumn(bound: Row, i: nat, startLine: nat) returns (more: bool, binds: Row, i': nat)
      requires Valid() && z != null && i < |bound|
      modifies this, z
      ensures Valid() && z != null && (z == old(z) || fresh(z)) && |binds| == |bound|
      ensures more ==> i' == i + 1
      ensures FieldLoop(input, old(Now()), bound, i, startLine, cColSep, cRowSep) ==
              if more then FieldLoop(input, Now(), binds, i', startLine, cColSep, cRowSep)
              else Progress(Now(), binds, i')
    {
      binds, i', more := bound, i, false;
      ghost var before := Now();
      var field := CsvReadOneField();
      FieldLoopStep(input, before, bound, i, startLine, cColSep, cRowSep, field, Now());
      if field.None? && i == 0 { return; }
      binds := binds[i := field];
      if i < |bound| - 1 && cTerm != cColSep as int {
        log := log + [TooFew(startLine, i + 1)];
        binds := BindNulls(binds, i + 1);
        i' := |bound| + 2;
        return;
      }
      i', more := i + 1, true;
    }

    method ReadColumns(bound: Row) returns (binds: Row, i: nat)
      requires Valid() && z != null && bound != []
      modifies this, z
      ensures Valid() && z != null && (z == old(z) || fresh(z))
      ensures Progress(Now(), binds, i) ==
              FieldLoop(input, old(Now()), bound, 0, old(nLine), cColSep, cRowSep)
    {
      var startLine, nCol := nLine, |bound|;
      binds, i := bound, 0;
      ghost var goal := FieldLoop(input, Now(), bound, 0, nLine, cColSep, cRowSep);
      while i < nCol
        invariant Valid() && z != null && (z == old(z) || fresh(z))
        invariant |binds| == nCol
        invariant i <= nCol && goal == FieldLoop(input, Now(), binds, i, startLine, cColSep, cRowSep)
      {
        var more;
        more, binds, i := ReadColumn(binds, i, startLine);
        if !more { return; }
      }
    }

    method SkipRest(found: nat) returns (i: nat)
      requires Valid() && z != null
      modifies this, z
      ensures Valid() && z != null && (z == old(z) || fresh(z))
      ensures (Now(), i) == SkipExtras(input, old(Now()), found, cColSep, cRowSep)
    {
      i := found;
      ghost var goal := SkipExtras(input, Now(), found, cColSep, cRowSep);
      var more := true;
      while more
        invariant Valid() && z != null && (z == old(z) || fresh(z))
        invariant goal == if more then SkipExtras(input, Now(), i, cColSep, cRowSep) else (Now(), i)
        decreases more, |input| - pos
      {
        var _ := CsvReadOneField();
        i := i + 1;
        more := cTerm == cColSep as int;
      }
    }

    method ReadOneRow(bound: Row) returns (binds: Row, i: nat)
      requires Valid() && z != null && bound != []
      modifies this, z
      ensures Valid() && z != null && (z == old(z) || fresh(z))
      ensures Progress(Now(), binds, i) == ReadRow(input, old(Now()), bound, cColSep, cRowSep)
    {
      var startLine := nLine;
      binds, i := ReadColumns(bound);
      if cTerm == cColSep as int {
        i := SkipRest(i);
        log := log + [TooMany(startLine, i)];
      }
    }

    /** Imports the whole input into a table of nCol columns. */
    method Import(nCol: nat) returns (rows: seq<Row>)
      requires Valid() && nCol > 0
      modifies this, z
      ensures (rows, Now()) == ImportRows(input, old(Now()), Nulls(nCol), [], cColSep, cRowSep)
    {
      ImportAppendChar(NUL);
      var binds: Row := Nulls(nCol);
      ghost var goal := ImportRows(input, Now(), binds, [], cColSep, cRowSep);
      rows := [];
      var more := true;
      while more
        invariant Valid() && z != null && (z == old(z) || fresh(z)) && |binds| == nCol
        invariant goal == if more then ImportRows(input, Now(), binds, rows, cColSep, cRowSep) else (rows, Now())
        decreases more, |input| - pos
      {
        var i;
        binds, i := ReadOneRow(binds);
        if i >= nCol {
          rows := rows + [binds];
        }
        more := cTerm != EOF;
      }
    }
  }

  // ---------------------------------------------------------------- fields read back

  predicate GoodSeparator(sep: char) {
    sep != QUOTE && sep != CR && sep != LF && sep != NUL && sep as int < 128
  }

  predicate RowEnd(rsep: string) {
    rsep == [LF] || rsep == [CR, LF]
  }

  /** What may follow a field that ends at pos: the separator, one of the two row separators, or the
      end of the input. */
  predicate Terminator(s: string, pos: nat, t: string, sep: char) {
    t == [sep] || RowEnd(t) || (t == "" && pos == |s|)
  }

  function Newlines(z: string): nat {
    if z == "" then 0 else (if z[0] == LF then 1 else 0) + Newlines(z[1..])
  }

  lemma {:induction false} NoNewlines(z: string)
    requires forall i :: 0 <= i < |z| ==> z[i] != LF
    ensures Newlines(z) == 0
  {
    if z != "" { NoNewlines(z[1..]); }
  }

  /** The reader behind a field z that was written in n bytes and its terminator. */
  function Behind(k: Cursor, n: nat, z: string, t: string): Cursor {
    var last := if t == "" then EOF else t[|t| - 1] as int;
    Cursor(k.pos + n + |t|, k.line + Newlines(z) + (if last == LF as int then 1 else 0), last, k.log)
  }

  lemma {:induction false} PlainEndIs(s: string, i: nat, e: nat, sep: char, rsep: char)
    requires i <= e <= |s| && Separates(CharAt(s, e), sep, rsep)
    requires forall k :: i <= k < e ==> !Separates(CharAt(s, k), sep, rsep)
    ensures PlainEnd(s, i, sep, rsep) == e
    decreases e - i
  {
    if i < e { PlainEndIs(s, i + 1, e, sep, rsep); }
  }

  /** None of the bytes of an unquoted field means anything to the reader. */
  lemma PlainBytes(s: string, pos: nat, z: string, sep: char)
    requires GoodSeparator(sep) && !Quoted(z, [sep]) && Holds(s, pos, z)
    ensures z != "" && z[0] != QUOTE && z[|z| - 1] != CR && Newlines(z) == 0
    ensures forall i :: pos <= i < pos + |z| ==> !Separates(CharAt(s, i), sep, LF)
  {
    forall i | 0 <= i < |z| ensures s[pos + i] == z[i] && !ForcesQuotes(z, [sep], i) {
      HoldsAt(s, pos, z, i);
    }
    forall i | pos <= i < pos + |z| ensures !Separates(CharAt(s, i), sep, LF) {
      assert s[i] == z[i - pos] && !ForcesQuotes(z, [sep], i - pos);
    }
    NoNewlines(z);
  }

  /** An unquoted field ends at the last byte of its terminator. */
  lemma PlainStop(s: string, pos: nat, z: string, t: string, sep: char)
    requires GoodSeparator(sep) && !Quoted(z, [sep]) && Holds(s, pos, z + t) && Terminator(s, pos + |z|, t, sep)
    ensures var e := pos + |z| + (if t == [CR, LF] then 1 else 0);
            && e <= |s| && PlainEnd(s, pos, sep, LF) == e
            && CharAt(s, e) == (if t == "" then EOF else t[|t| - 1] as int)
            && Holds(s, pos, if t == [CR, LF] then z + [CR] else z)
  {
    HoldsParts(s, pos, z, t);
    PlainBytes(s, pos, z, sep);
    var e := pos + |z| + (if t == [CR, LF] then 1 else 0);
    if t != "" {
      HoldsAt(s, pos + |z|, t, 0);
      HoldsAt(s, pos + |z|, t, |t| - 1);
    }
    PlainEndIs(s, pos, e, sep, LF);
    if t == [CR, LF] {
      assert z + t == z + [CR] + [LF];
      HoldsParts(s, pos, z + [CR], [LF]);
    }
  }

  /** PlainField without the CR of a CRLF. */
  function Uncut(text: string, c: int): string {
    if c == LF as int && text != "" && text[|text| - 1] == CR then text[..|text| - 1] else text
  }

  lemma PlainFieldIs(s: string, k: Cursor, e: nat, text: string, sep: char)
    requires k.pos <= e <= |s| && PlainEnd(s, k.pos, sep, LF) == e && Holds(s, k.pos, text) && e == k.pos + |text|
    ensures var c := CharAt(s, e);
            PlainField(s, k, sep, LF) ==
            (Uncut(text, c), Cursor(Advance(s, e), if c == LF as int then k.line + 1 else k.line, c, k.log))
  {
  }

  lemma UncutIs(z: string, t: string, c: int)
    requires z != "" && z[|z| - 1] != CR && (t == [CR, LF] ==> c == LF as int)
    ensures Uncut(if t == [CR, LF] then z + [CR] else z, c) == z
  {
  }

  lemma PlainBack(s: string, k: Cursor, z: string, t: string, sep: char)
    requires GoodSeparator(sep) && !Quoted(z, [sep])
    requires Holds(s, k.pos, z + t) && Terminator(s, k.pos + |z|, t, sep)
    ensures k.pos < |s| && s[k.pos] != QUOTE && PlainField(s, k, sep, LF) == (z, Behind(k, |z|, z, t))
  {
    PlainStop(s, k.pos, z, t, sep);
    HoldsParts(s, k.pos, z, t);
    PlainBytes(s, k.pos, z, sep);
    HoldsAt(s, k.pos, z, 0);
    var text := if t == [CR, LF] then z + [CR] else z;
    PlainFieldIs(s, k, k.pos + |text|, text, sep);
    UncutIs(z, t, CharAt(s, k.pos + |text|));
  }

  /** Between two bytes of the field's content the reader cannot mistake what follows for its end. */
  predicate AtBoundary(pc: char, ppc: char) {
    pc != QUOTE && (pc == CR ==> ppc != QUOTE)
  }

  lemma ClosingBack(s: string, k: Cursor, acc: string, t: string, pc: char, ppc: char, start: nat, sep: char)
    requires GoodSeparator(sep) && AtBoundary(pc, ppc)
    requires Holds(s, k.pos, [QUOTE] + t) && Terminator(s, k.pos + 1, t, sep)
    ensures QuotedField(s, k, acc, pc, ppc, start, sep, LF) == (acc, Behind(k, 1, "", t))
  {
    HoldsAt(s, k.pos, [QUOTE] + t, 0);
    if t != "" {
      HoldsAt(s, k.pos, [QUOTE] + t, 1);
      HoldsAt(s, k.pos, [QUOTE] + t, |t|);
    }
    var quoted := acc + [QUOTE];
    assert CutAtQuote(quoted) == acc;
    var k1 := k.(pos := k.pos + 1);
    assert QuotedField(s, k, acc, pc, ppc, start, sep, LF) == QuotedField(s, k1, quoted, QUOTE, pc, start, sep, LF);
    if t == [CR, LF] {
      HoldsAt(s, k.pos, [QUOTE] + t, 2);
      assert (quoted + [CR])[..|quoted|] == quoted;
      assert CutAtQuote(quoted + [CR]) == acc;
      var k2 := k.(pos := k.pos + 2);
      assert QuotedField(s, k1, quoted, QUOTE, pc, start, sep, LF) ==
             QuotedField(s, k2, quoted + [CR], CR, QUOTE, start, sep, LF);
    }
  }

  /** One byte of the content, once it has been doubled if it is a quote. */
  lemma ContentByte(s: string, k: Cursor, c: char, acc: string, pc: char, ppc: char, start: nat, sep: char)
    requires GoodSeparator(sep) && AtBoundary(pc, ppc) && Holds(s, k.pos, Doubled([c], QUOTE))
    ensures var k1 := k.(pos := k.pos + |Doubled([c], QUOTE)|, line := if c == LF then k.line + 1 else k.line);
            QuotedField(s, k, acc, pc, ppc, start, sep, LF) ==
            QuotedField(s, k1, acc + [c], if c == QUOTE then NUL else c, pc, start, sep, LF)
  {
    var text := Doubled([c], QUOTE);
    DoubledOne(c, QUOTE);
    HoldsAt(s, k.pos, text, 0);
    HoldsAt(s, k.pos, text, |text| - 1);
    if c == QUOTE {
      assert QuotedField(s, k, acc, pc, ppc, start, sep, LF) ==
             QuotedField(s, k.(pos := k.pos + 1), acc + [QUOTE], QUOTE, pc, start, sep, LF);
    }
  }

  /** The reader behind content z. */
  function Past(k: Cursor, z: string): Cursor {
    k.(pos := k.pos + |Doubled(z, QUOTE)|, line := k.line + Newlines(z))
  }

  lemma PastFirst(k: Cursor, z: string)
    requires z != ""
    ensures Past(k, z) ==
            Past(k.(pos := k.pos + |Doubled([z[0]], QUOTE)|, line := if z[0] == LF then k.line + 1 else k.line),
                 z[1..])
  {
    DoubledFirst(z, QUOTE);
  }

  /** The content of a quoted field is taken in, whatever it is. */
  lemma {:induction false} ContentBack(s: string, k: Cursor, z: string, acc: string, pc: char, ppc: char,
                                       start: nat, sep: char) returns (pc1: char, ppc1: char)
    requires GoodSeparator(sep) && AtBoundary(pc, ppc) && Holds(s, k.pos, Doubled(z, QUOTE))
    ensures AtBoundary(pc1, ppc1)
    ensures QuotedField(s, k, acc, pc, ppc, start, sep, LF) ==
            QuotedField(s, Past(k, z), acc + z, pc1, ppc1, start, sep, LF)
    decreases |z|
  {
    if z == "" {
      pc1, ppc1 := pc, ppc;
      assert acc + z == acc;
    } else {
      var c, n := z[0], |Doubled([z[0]], QUOTE)|;
      DoubledFirst(z, QUOTE);
      HoldsParts(s, k.pos, Doubled([c], QUOTE), Doubled(z[1..], QUOTE));
      ContentByte(s, k, c, acc, pc, ppc, start, sep);
      PastFirst(k, z);
      AccFirst(acc, z);
      var k1 := k.(pos := k.pos + n, line := if c == LF then k.line + 1 else k.line);
      pc1, ppc1 := ContentBack(s, k1, z[1..], acc + [c], if c == QUOTE then NUL else c, pc, start, sep);
    }
  }

  lemma AccFirst(acc: string, z: string)
    requires z != ""
    ensures acc + [z[0]] + z[1..] == acc + z
  {
    Regroup(acc, [z[0]], z[1..]);
    assert [z[0]] + z[1..] == z;
  }

  lemma QuotedBack(s: string, k: Cursor, z: string, acc: string, t: string, pc: char, ppc: char,
                   start: nat, sep: char)
    requires GoodSeparator(sep) && AtBoundary(pc, ppc)
    requires Holds(s, k.pos, Doubled(z, QUOTE) + ([QUOTE] + t))
    requires Terminator(s, k.pos + |Doubled(z, QUOTE)| + 1, t, sep)
    ensures QuotedField(s, k, acc, pc, ppc, start, sep, LF) == (acc + z, Behind(k, |Doubled(z, QUOTE)| + 1, z, t))
  {
    HoldsParts(s, k.pos, Doubled(z, QUOTE), [QUOTE] + t);
    var pc1, ppc1 := ContentBack(s, k, z, acc, pc, ppc, start, sep);
    ClosingBack(s, Past(k, z), acc + z, t, pc1, ppc1, start, sep);
  }

  /** Once the opening quote is read, the content of the field is what QuotedField gives. */
  lemma ReadQuoted(s: string, k: Cursor, rest: string, sep: char)
    requires Holds(s, k.pos, [QUOTE] + rest)
    ensures k.pos < |s| && Holds(s, k.pos + 1, rest)
    ensures var (text, k1) := QuotedField(s, k.(pos := k.pos + 1), "", NUL, NUL, k.line, sep, LF);
            ReadField(s, k, sep, LF) == (Some(CStr(text)), k1)
  {
    HoldsParts(s, k.pos, [QUOTE], rest);
    HoldsAt(s, k.pos, [QUOTE], 0);
  }

  lemma QuotedFieldBack(s: string, k: Cursor, z: string, t: string, sep: char)
    requires GoodSeparator(sep) && NulFree(z)
    requires Holds(s, k.pos, [QUOTE] + (Doubled(z, QUOTE) + ([QUOTE] + t)))
    requires Terminator(s, k.pos + |Doubled(z, QUOTE)| + 2, t, sep)
    ensures k.pos < |s| && ReadField(s, k, sep, LF) == (Some(z), Behind(k, |Doubled(z, QUOTE)| + 2, z, t))
  {
    ReadQuoted(s, k, Doubled(z, QUOTE) + ([QUOTE] + t), sep);
    QuotedBack(s, k.(pos := k.pos + 1), z, "", t, NUL, NUL, k.line, sep);
    assert "" + z == z;
    CStrNulFree(z);
  }

  /** A field written and followed by a terminator is read back, with nothing on stderr. */
  lemma FieldBack(s: string, k: Cursor, z: string, t: string, sep: char)
    requires GoodSeparator(sep) && NulFree(z)
    requires Holds(s, k.pos, FieldText(z, [sep]) + t) && Terminator(s, k.pos + |FieldText(z, [sep])|, t, sep)
    ensures k.pos < |s| && ReadField(s, k, sep, LF) == (Some(z), Behind(k, |FieldText(z, [sep])|, z, t))
  {
    if Quoted(z, [sep]) {
      assert FieldText(z, [sep]) + t == [QUOTE] + (Doubled(z, QUOTE) + ([QUOTE] + t));
      QuotedFieldBack(s, k, z, t, sep);
    } else {
      CStrNulFree(z);
      PlainBack(s, k, z, t, sep);
    }
  }

  // ---------------------------------------------------------------- malformed fields

  /** A quoted field that is never closed is everything up to the end of the input, and is reported
      with the line it starts on. */
  lemma NeverClosed(s: string, k: Cursor, z: string, sep: char)
    requires GoodSeparator(sep) && NulFree(z)
    requires Holds(s, k.pos, [QUOTE] + Doubled(z, QUOTE)) && k.pos + 1 + |Doubled(z, QUOTE)| == |s|
    ensures ReadField(s, k, sep, LF) ==
            (Some(z), Cursor(|s|, k.line + Newlines(z), EOF, k.log + [Unterminated(k.line)]))
  {
    ReadQuoted(s, k, Doubled(z, QUOTE), sep);
    var pc, ppc := ContentBack(s, k.(pos := k.pos + 1), z, "", NUL, NUL, k.line, sep);
    assert "" + z == z;
    CStrNulFree(z);
  }

  /** A byte behind a quote that cannot be there. */
  predicate Stray(c: char, sep: char) {
    c != QUOTE && c != sep && c != LF && c != CR
  }

  lemma StrayByte(s: string, k: Cursor, c: char, acc: string, pc: char, ppc: char, start: nat, sep: char)
    requires GoodSeparator(sep) && AtBoundary(pc, ppc) && Stray(c, sep) && Holds(s, k.pos, [QUOTE, c])
    ensures QuotedField(s, k, acc, pc, ppc, start, sep, LF) ==
            QuotedField(s, k.(pos := k.pos + 2, log := k.log + [Unescaped(k.line)]), acc + [QUOTE, c], c, QUOTE,
                        start, sep, LF)
  {
    HoldsAt(s, k.pos, [QUOTE, c], 0);
    HoldsAt(s, k.pos, [QUOTE, c], 1);
    var k1, quoted := k.(pos := k.pos + 1), acc + [QUOTE];
    assert QuotedField(s, k, acc, pc, ppc, start, sep, LF) == QuotedField(s, k1, quoted, QUOTE, pc, start, sep, LF);
    assert quoted + [c] == acc + [QUOTE, c];
  }

  /** The reader behind y, a stray quote, and the byte after it. */
  function PastStray(k: Cursor, y: string): Cursor {
    var line := k.line + Newlines(y);
    Cursor(k.pos + |Doubled(y, QUOTE)| + 2, line, k.term, k.log + [Unescaped(line)])
  }

  /** The content of a quoted field that goes on behind a stray quote. */
  lemma StrayContent(s: string, k: Cursor, y: string, c: char, rest: string, acc: string, pc: char, ppc: char,
                     start: nat, sep: char)
    requires GoodSeparator(sep) && Stray(c, sep) && AtBoundary(pc, ppc)
    requires Holds(s, k.pos, Doubled(y, QUOTE) + ([QUOTE, c] + rest))
    ensures var k2 := PastStray(k, y);
            && Holds(s, k2.pos, rest)
            && QuotedField(s, k, acc, pc, ppc, start, sep, LF) ==
               QuotedField(s, k2, acc + y + [QUOTE, c], c, QUOTE, start, sep, LF)
  {
    HoldsParts(s, k.pos, Doubled(y, QUOTE), [QUOTE, c] + rest);
    var pc1, ppc1 := ContentBack(s, k, y, acc, pc, ppc, start, sep);
    var k1 := Past(k, y);
    HoldsParts(s, k1.pos, [QUOTE, c], rest);
    StrayByte(s, k1, c, acc + y, pc1, ppc1, start, sep);
  }

  lemma NulFreeStray(y: string, c: char, z: string)
    requires NulFree(y) && NulFree(z) && c != NUL
    ensures CStr(y + [QUOTE, c] + z) == y + [QUOTE, c] + z
  {
    CStrNulFree(y + [QUOTE, c] + z);
  }

  lemma StrayField(s: string, k: Cursor, y: string, c: char, z: string, t: string, acc: string, pc: char, ppc: char,
                   start: nat, sep: char)
    requires GoodSeparator(sep) && Stray(c, sep) && AtBoundary(pc, ppc)
    requires Holds(s, k.pos, Doubled(y, QUOTE) + ([QUOTE, c] + (Doubled(z, QUOTE) + ([QUOTE] + t))))
    requires Terminator(s, PastStray(k, y).pos + |Doubled(z, QUOTE)| + 1, t, sep)
    ensures QuotedField(s, k, acc, pc, ppc, start, sep, LF) ==
            (acc + y + [QUOTE, c] + z, Behind(PastStray(k, y), |Doubled(z, QUOTE)| + 1, z, t))
  {
    var rest := Doubled(z, QUOTE) + ([QUOTE] + t);
    StrayContent(s, k, y, c, rest, acc, pc, ppc, start, sep);
    QuotedBack(s, PastStray(k, y), z, acc + y + [QUOTE, c], t, c, QUOTE, start, sep);
  }

  /** A single quote inside a quoted field is kept, and reported with the line it is on; the field
      goes on to its closing quote. */
  lemma StrayQuote(s: string, k: Cursor, y: string, c: char, z: string, t: string, sep: char)
    requires GoodSeparator(sep) && Stray(c, sep) && c != NUL && NulFree(y) && NulFree(z)
    requires Holds(s, k.pos, [QUOTE] + (Doubled(y, QUOTE) + ([QUOTE, c] + (Doubled(z, QUOTE) + ([QUOTE] + t)))))
    requires Terminator(s, PastStray(k.(pos := k.pos + 1), y).pos + |Doubled(z, QUOTE)| + 1, t, sep)
    ensures ReadField(s, k, sep, LF) ==
            (Some(y + [QUOTE, c] + z), Behind(PastStray(k.(pos := k.pos + 1), y), |Doubled(z, QUOTE)| + 1, z, t))
  {
    var k0 := k.(pos := k.pos + 1);
    ReadQuoted(s, k, Doubled(y, QUOTE) + ([QUOTE, c] + (Doubled(z, QUOTE) + ([QUOTE] + t))), sep);
    StrayField(s, k0, y, c, z, t, "", NUL, NUL, k.line, sep);
    assert "" + y == y;
    NulFreeStray(y, c, z);
  }

  // ---------------------------------------------------------------- rows of any width read back

  predicate GoodRow(row: seq<string>) {
    row != [] && forall j :: 0 <= j < |row| ==> NulFree(row[j])
  }

  /** The first n fields of a row; NULL for those it has not got. */
  function Fitted(row: seq<string>, n: nat): (r: Row)
    ensures |r| == n
  {
    seq(n, j requires 0 <= j => if j < |row| then Some(row[j]) else None)
  }

  function FittedAll(rows: seq<seq<string>>, n: nat): (r: seq<Row>)
    ensures |r| == |rows| && forall i :: 0 <= i < |rows| ==> r[i] == Fitted(rows[i], n)
  {
    if rows == [] then [] else [Fitted(rows[0], n)] + FittedAll(rows[1..], n)
  }

  /** What is said about a row that starts on this line. */
  function Complaint(row: seq<string>, n: nat, line: nat): seq<Message> {
    if |row| < n then [TooFew(line, |row|)] else if |row| > n then [TooMany(line, |row|)] else []
  }

  /** The newlines in the fields of a row. */
  function Inner(row: seq<string>): nat {
    if row == [] then 0 else Newlines(row[0]) + Inner(row[1..])
  }

  /** What is said about these rows, of which the first starts on this line.  A row takes a line, and
      one more for each newline in a field. */
  function Complaints(rows: seq<seq<string>>, n: nat, line: nat): seq<Message>
    decreases |rows|
  {
    if rows == [] then []
    else Complaint(rows[0], n, line) + Complaints(rows[1..], n, line + Inner(rows[0]) + 1)
  }

  /** The file may lack its last line end. */
  function FileText(rows: seq<seq<string>>, sep: string, rsep: string, closed: bool): string {
    if rows == [] then ""
    else if |rows| == 1 && !closed then RowText(rows[0], sep, "")
    else RowText(rows[0], sep, rsep) + FileText(rows[1..], sep, rsep, closed)
  }

  lemma {:induction false} ClosedFile(rows: seq<seq<string>>, sep: string, rsep: string)
    ensures FileText(rows, sep, rsep, true) == TableText(rows, sep, rsep)
  {
    if rows != [] { ClosedFile(rows[1..], sep, rsep); }
  }

  /** rsep is what ends the row: a line end, or the end of the input. */
  predicate EndsRow(s: string, end: nat, rsep: string) {
    RowEnd(rsep) || (rsep == "" && end == |s|)
  }

  /** Field i of the row and what follows it, and the newlines in that. */
  function RowFrom(row: seq<string>, i: nat, sep: string, rsep: string): string
    requires i < |row|
    decreases |row| - i
  {
    FieldText(row[i], sep) + (if i == |row| - 1 then rsep else sep + RowFrom(row, i + 1, sep, rsep))
  }

  function InnerFrom(row: seq<string>, i: nat): nat
    decreases |row| - i
  {
    if i >= |row| then 0 else Newlines(row[i]) + InnerFrom(row, i + 1)
  }

  lemma {:induction false} RowFromIs(row: seq<string>, i: nat, sep: string, rsep: string)
    requires i < |row|
    ensures RowFrom(row, i, sep, rsep) == RowText(row[i..], sep, rsep) && InnerFrom(row, i) == Inner(row[i..])
    decreases |row| - i
  {
    assert row[i..][1..] == row[i + 1..];
    if i < |row| - 1 {
      RowFromIs(row, i + 1, sep, rsep);
      Regroup(FieldText(row[i], sep), sep, RowFrom(row, i + 1, sep, rsep));
    }
  }

  lemma WholeRow(row: seq<string>, sep: string, rsep: string)
    requires row != []
    ensures RowFrom(row, 0, sep, rsep) == RowText(row, sep, rsep) && InnerFrom(row, 0) == Inner(row)
  {
    RowFromIs(row, 0, sep, rsep);
    assert row[0..] == row;
  }

  /** The reader faces field i of the row, which ends at end. */
  ghost predicate Facing(s: string, k: Cursor, row: seq<string>, i: nat, sep: char, rsep: string, end: Cursor) {
    && i < |row| && GoodRow(row) && GoodSeparator(sep) && EndsRow(s, end.pos, rsep)
    && Holds(s, k.pos, RowFrom(row, i, [sep], rsep))
    && end == Cursor(k.pos + |RowFrom(row, i, [sep], rsep)|,
                     k.line + InnerFrom(row, i) + (if rsep == "" then 0 else 1),
                     if rsep == "" then EOF else LF as int, k.log)
  }

  lemma FieldMiddle(s: string, k: Cursor, row: seq<string>, i: nat, sep: char, rsep: string, end: Cursor)
    returns (k1: Cursor)
    requires Facing(s, k, row, i, sep, rsep, end) && i < |row| - 1
    ensures k.pos < |s| && ReadField(s, k, sep, LF) == (Some(row[i]), k1)
    ensures k1.term == sep as int && Facing(s, k1, row, i + 1, sep, rsep, end)
  {
    var field, rest := FieldText(row[i], [sep]), RowFrom(row, i + 1, [sep], rsep);
    k1 := Behind(k, |field|, row[i], [sep]);
    Regroup(field, [sep], rest);
    HoldsParts(s, k.pos, field + [sep], rest);
    FieldBack(s, k, row[i], [sep], sep);
  }

  lemma FieldLast(s: string, k: Cursor, row: seq<string>, i: nat, sep: char, rsep: string, end: Cursor)
    requires Facing(s, k, row, i, sep, rsep, end) && i == |row| - 1
    ensures k.pos < |s| && ReadField(s, k, sep, LF) == (Some(row[i]), end)
  {
    FieldBack(s, k, row[i], rsep, sep);
    assert InnerFrom(row, i + 1) == 0;
  }

  /** Each field is read with what follows it: the separator and the next field, or the end. */
  lemma FieldRead(s: string, k: Cursor, row: seq<string>, i: nat, sep: char, rsep: string, end: Cursor)
    returns (k1: Cursor)
    requires Facing(s, k, row, i, sep, rsep, end)
    ensures k.pos < |s| && ReadField(s, k, sep, LF) == (Some(row[i]), k1)
    ensures if i == |row| - 1 then k1 == end
            else k1.term == sep as int && Facing(s, k1, row, i + 1, sep, rsep, end)
  {
    if i == |row| - 1 {
      FieldLast(s, k, row, i, sep, rsep, end);
      k1 := end;
    } else {
      k1 := FieldMiddle(s, k, row, i, sep, rsep, end);
    }
  }

  /** The first i bindings are those of the row. */
  predicate Filled(binds: Row, row: seq<string>, i: nat) {
    i <= |binds| && i <= |row| && forall j :: 0 <= j < i ==> binds[j] == Some(row[j])
  }

  lemma FilledMore(binds: Row, row: seq<string>, i: nat, b: Row)
    requires Filled(binds, row, i) && i < |binds| && i < |row| && b == binds[i := Some(row[i])]
    ensures Filled(b, row, i + 1)
  {
  }

  lemma FittedShort(b: Row, row: seq<string>)
    requires |row| < |b| && Filled(b, row, |row|)
    ensures b[..|row|] + Nulls(|b| - |row|) == Fitted(row, |b|)
  {
  }

  lemma FittedFull(b: Row, row: seq<string>)
    requires Filled(b, row, |b|)
    ensures b == Fitted(row, |b|)
  {
  }

  lemma LoopEnd(s: string, k: Cursor, binds: Row, i: nat, start: nat, sep: char)
    requires k.pos <= |s| && i == |binds|
    ensures FieldLoop(s, k, binds, i, start, sep, LF) == Progress(k, binds, i)
  {
  }

  /** A row with no more fields than there are columns: the rest is NULL, which is reported. */
  lemma {:induction false} ShortRow(s: string, k: Cursor, binds: Row, row: seq<string>, i: nat, start: nat,
                                    sep: char, rsep: string, end: Cursor)
    requires Facing(s, k, row, i, sep, rsep, end) && |row| <= |binds| && Filled(binds, row, i)
    ensures var p := FieldLoop(s, k, binds, i, start, sep, LF);
            && p.binds == Fitted(row, |binds|) && p.i >= |binds|
            && p.k == end.(log := k.log + Complaint(row, |binds|, start))
    decreases |row| - i
  {
    var b := binds[i := Some(row[i])];
    FilledMore(binds, row, i, b);
    if i < |row| - 1 {
      var k1 := FieldMiddle(s, k, row, i, sep, rsep, end);
      FieldLoopStep(s, k, binds, i, start, sep, LF, Some(row[i]), k1);
      ShortRow(s, k1, b, row, i + 1, start, sep, rsep, end);
    } else {
      FieldLast(s, k, row, i, sep, rsep, end);
      FieldLoopStep(s, k, binds, i, start, sep, LF, Some(row[i]), end);
      if i < |binds| - 1 {
        FittedShort(b, row);
      } else {
        LoopEnd(s, end, b, i + 1, start, sep);
        FittedFull(b, row);
        assert k.log + [] == k.log;
      }
    }
  }

  /** A row with more fields than columns: the loop over the columns stops before the extra ones. */
  lemma {:induction false} LongRow(s: string, k: Cursor, binds: Row, row: seq<string>, i: nat, start: nat,
                                   sep: char, rsep: string, end: Cursor)
    requires Facing(s, k, row, i, sep, rsep, end) && i < |binds| < |row| && Filled(binds, row, i)
    ensures var p := FieldLoop(s, k, binds, i, start, sep, LF);
            && p.binds == Fitted(row, |binds|) && p.i == |binds| && p.k.term == sep as int
            && Facing(s, p.k, row, |binds|, sep, rsep, end)
    decreases |row| - i
  {
    var k1 := FieldMiddle(s, k, row, i, sep, rsep, end);
    var b := binds[i := Some(row[i])];
    FilledMore(binds, row, i, b);
    FieldLoopStep(s, k, binds, i, start, sep, LF, Some(row[i]), k1);
    if i < |binds| - 1 {
      LongRow(s, k1, b, row, i + 1, start, sep, rsep, end);
    } else {
      FittedFull(b, row);
      LoopEnd(s, k1, b, i + 1, start, sep);
    }
  }

  /** The extra fields are read, counted and ignored. */
  lemma {:induction false} ExtrasBack(s: string, k: Cursor, row: seq<string>, i: nat, sep: char, rsep: string,
                                      end: Cursor)
    requires Facing(s, k, row, i, sep, rsep, end)
    ensures SkipExtras(s, k, i, sep, LF) == (end, |row|)
    decreases |row| - i
  {
    var k1 := FieldRead(s, k, row, i, sep, rsep, end);
    if i < |row| - 1 { ExtrasBack(s, k1, row, i + 1, sep, rsep, end); }
  }

  lemma RowBack(s: string, k: Cursor, binds: Row, row: seq<string>, sep: char, rsep: string, end: Cursor)
    requires Facing(s, k, row, 0, sep, rsep, end) && binds != []
    ensures var p := ReadRow(s, k, binds, sep, LF);
            && p.binds == Fitted(row, |binds|) && p.i >= |binds|
            && p.k == end.(log := k.log + Complaint(row, |binds|, k.line))
  {
    if |row| <= |binds| {
      ShortRow(s, k, binds, row, 0, k.line, sep, rsep, end);
    } else {
      LongRow(s, k, binds, row, 0, k.line, sep, rsep, end);
      var p := FieldLoop(s, k, binds, 0, k.line, sep, LF);
      ExtrasBack(s, p.k, row, |binds|, sep, rsep, end);
    }
  }

  // ---------------------------------------------------------------- whole files

  /** The reader faces these rows, and nothing after them. */
  ghost predicate FacingRows(s: string, k: Cursor, rows: seq<seq<string>>, sep: char, rsep: string, closed: bool) {
    && GoodSeparator(sep) && RowEnd(rsep) && (forall i :: 0 <= i < |rows| ==> GoodRow(rows[i]))
    && Holds(s, k.pos, FileText(rows, [sep], rsep, closed))
    && |s| == k.pos + |FileText(rows, [sep], rsep, closed)|
  }

  /** The last row, and no line end behind it. */
  lemma LastRow(s: string, k: Cursor, row: seq<string>, sep: char, rsep: string) returns (end: Cursor)
    requires FacingRows(s, k, [row], sep, rsep, false)
    ensures Facing(s, k, row, 0, sep, "", end) && end.log == k.log && end.term == EOF
  {
    WholeRow(row, [sep], "");
    end := Cursor(k.pos + |RowText(row, [sep], "")|, k.line + Inner(row), EOF, k.log);
  }

  /** The end of the first row, and the rows behind it. */
  lemma FirstRow(s: string, k: Cursor, rows: seq<seq<string>>, sep: char, rsep: string, closed: bool)
    returns (end: Cursor)
    requires FacingRows(s, k, rows, sep, rsep, closed) && rows != [] && (|rows| > 1 || closed)
    ensures Facing(s, k, rows[0], 0, sep, rsep, end) && end.log == k.log && end.term == LF as int
    ensures end.line == k.line + Inner(rows[0]) + 1 && FacingRows(s, end, rows[1..], sep, rsep, closed)
  {
    var text, rest := RowText(rows[0], [sep], rsep), FileText(rows[1..], [sep], rsep, closed);
    HoldsParts(s, k.pos, text, rest);
    WholeRow(rows[0], [sep], rsep);
    end := Cursor(k.pos + |text|, k.line + Inner(rows[0]) + 1, LF as int, k.log);
  }

  lemma RowStep(s: string, k: Cursor, binds: Row, rows: seq<seq<string>>, sep: char, rsep: string, closed: bool)
    returns (p: Progress)
    requires FacingRows(s, k, rows, sep, rsep, closed) && binds != [] && rows != []
    ensures p == ReadRow(s, k, binds, sep, LF) && p.i >= |binds| == |p.binds|
    ensures p.binds == Fitted(rows[0], |binds|) && p.k.log == k.log + Complaint(rows[0], |binds|, k.line)
    ensures if |rows| == 1 && !closed then p.k.term == EOF
            else p.k.term != EOF && p.k.line == k.line + Inner(rows[0]) + 1 && k.pos < p.k.pos &&
                 FacingRows(s, p.k, rows[1..], sep, rsep, closed)
  {
    p := ReadRow(s, k, binds, sep, LF);
    var end;
    if |rows| == 1 && !closed {
      assert rows == [rows[0]];
      end := LastRow(s, k, rows[0], sep, rsep);
      RowBack(s, k, binds, rows[0], sep, "", end);
    } else {
      end := FirstRow(s, k, rows, sep, rsep, closed);
      RowBack(s, k, binds, rows[0], sep, rsep, end);
    }
  }

  /** The rows inserted so far, and then these. */
  function FittedOnto(done: seq<Row>, rows: seq<seq<string>>, n: nat): seq<Row>
    decreases |rows|
  {
    if rows == [] then done else FittedOnto(done + [Fitted(rows[0], n)], rows[1..], n)
  }

  /** What has been said so far, and then what is said about these rows. */
  function SaidOnto(log: seq<Message>, rows: seq<seq<string>>, n: nat, line: nat): seq<Message>
    decreases |rows|
  {
    if rows == [] then log
    else SaidOnto(log + Complaint(rows[0], n, line), rows[1..], n, line + Inner(rows[0]) + 1)
  }

  lemma {:induction false} FittedOntoIs(done: seq<Row>, rows: seq<seq<string>>, n: nat)
    ensures FittedOnto(done, rows, n) == done + FittedAll(rows, n)
    decreases |rows|
  {
    if rows == [] {
      assert done + FittedAll(rows, n) == done;
    } else {
      FittedOntoIs(done + [Fitted(rows[0], n)], rows[1..], n);
      Regroup(done, [Fitted(rows[0], n)], FittedAll(rows[1..], n));
    }
  }

  lemma {:induction false} SaidOntoIs(log: seq<Message>, rows: seq<seq<string>>, n: nat, line: nat)
    ensures SaidOnto(log, rows, n, line) == log + Complaints(rows, n, line)
    decreases |rows|
  {
    if rows == [] {
      assert log + Complaints(rows, n, line) == log;
    } else {
      var next := line + Inner(rows[0]) + 1;
      SaidOntoIs(log + Complaint(rows[0], n, line), rows[1..], n, next);
      Regroup(log, Complaint(rows[0], n, line), Complaints(rows[1..], n, next));
    }
  }

  lemma ImportStep(s: string, k: Cursor, binds: Row, done: seq<Row>, sep: char, p: Progress)
    requires k.pos <= |s| && binds != [] && p == ReadRow(s, k, binds, sep, LF) && p.i >= |binds|
    ensures ImportRows(s, k, binds, done, sep, LF) ==
            if p.k.term == EOF then (done + [p.binds], p.k)
            else ImportRows(s, p.k, p.binds, done + [p.binds], sep, LF)
  {
  }

  lemma ImportEnd(s: string, k: Cursor, binds: Row, done: seq<Row>, sep: char)
    requires k.pos == |s| && binds != []
    ensures ImportRows(s, k, binds, done, sep, LF) == (done, k.(term := EOF))
  {
  }

  /** The rows inserted and what is said are those of rows. */
  predicate Answers(r: (seq<Row>, Cursor), done: seq<Row>, log: seq<Message>, rows: seq<seq<string>>,
                    n: nat, line: nat) {
    r.0 == FittedOnto(done, rows, n) && r.1.log == SaidOnto(log, rows, n, line)
  }

  lemma AnswersStep(r: (seq<Row>, Cursor), done: seq<Row>, log: seq<Message>, rows: seq<seq<string>>,
                    n: nat, line: nat)
    requires rows != []
    requires Answers(r, done + [Fitted(rows[0], n)], log + Complaint(rows[0], n, line), rows[1..], n,
                     line + Inner(rows[0]) + 1)
    ensures Answers(r, done, log, rows, n, line)
  {
  }

  lemma AnswersLast(r: (seq<Row>, Cursor), done: seq<Row>, log: seq<Message>, rows: seq<seq<string>>,
                    n: nat, line: nat)
    requires |rows| == 1 && r.0 == done + [Fitted(rows[0], n)] && r.1.log == log + Complaint(rows[0], n, line)
    ensures Answers(r, done, log, rows, n, line)
  {
    assert rows[1..] == [];
  }

  /** From any point in the file, every row to come is inserted, fitted to the columns, and every row
      of another width is reported. */
  lemma {:induction false} RowsBack(s: string, k: Cursor, binds: Row, done: seq<Row>, rows: seq<seq<string>>,
                                    sep: char, rsep: string, closed: bool, log: seq<Message>, n: nat, line: nat)
    requires FacingRows(s, k, rows, sep, rsep, closed) && 0 < n == |binds| && line == k.line && log == k.log
    ensures Answers(ImportRows(s, k, binds, done, sep, LF), done, log, rows, n, line)
    decreases |rows|
  {
    if rows == [] {
      ImportEnd(s, k, binds, done, sep);
    } else {
      var r := ImportRows(s, k, binds, done, sep, LF);
      var p := RowStep(s, k, binds, rows, sep, rsep, closed);
      ImportStep(s, k, binds, done, sep, p);
      if |rows| == 1 && !closed {
        AnswersLast(r, done, log, rows, n, line);
      } else {
        RowsBack(s, p.k, p.binds, done + [Fitted(rows[0], n)], rows[1..], sep, rsep, closed,
                 log + Complaint(rows[0], n, line), n, line + Inner(rows[0]) + 1);
        AnswersStep(r, done, log, rows, n, line);
      }
    }
  }

  /** Any rows, whatever their widths, and with the last line end missing or not, are inserted one for
      one: each is cut to the columns or filled up with NULL, and each of another width is reported
      once, with the line it starts on and the number of its fields. */
  lemma FileBack(rows: seq<seq<string>>, nCol: nat, sep: char, rsep: string, closed: bool)
    requires nCol > 0 && GoodSeparator(sep) && RowEnd(rsep) && forall i :: 0 <= i < |rows| ==> GoodRow(rows[i])
    ensures var text, binds := FileText(rows, [sep], rsep, closed), Nulls(nCol);
            var (got, k) := ImportRows(text, Cursor(0, 1, 0, []), binds, [], sep, LF);
            got == FittedAll(rows, nCol) && k.log == Complaints(rows, nCol, 1)
  {
    var s, k, binds: Row := FileText(rows, [sep], rsep, closed), Cursor(0, 1, 0, []), Nulls(nCol);
    assert s[0..|s|] == s;
    RowsBack(s, k, binds, [], rows, sep, rsep, closed, [], nCol, 1);
    FittedOntoIs([], rows, nCol);
    SaidOntoIs([], rows, nCol, 1);
  }

  lemma TableBack(rows: seq<seq<string>>, nCol: nat, sep: char, rsep: string)
    requires nCol > 0 && GoodSeparator(sep) && RowEnd(rsep) && forall i :: 0 <= i < |rows| ==> GoodRow(rows[i])
    ensures var text, binds := TableText(rows, [sep], rsep), Nulls(nCol);
            var (got, k) := ImportRows(text, Cursor(0, 1, 0, []), binds, [], sep, LF);
            got == FittedAll(rows, nCol) && k.log == Complaints(rows, nCol, 1)
  {
    ClosedFile(rows, [sep], rsep);
    FileBack(rows, nCol, sep, rsep, true);
  }

  function Bound(row: seq<string>): (r: Row)
    ensures |r| == |row|
  {
    seq(|row|, i requires 0 <= i < |row| => Some(row[i]))
  }

  function BoundAll(rows: seq<seq<string>>): seq<Row> {
    seq(|rows|, i requires 0 <= i < |rows| => Bound(rows[i]))
  }

  lemma {:induction false} NothingToSay(rows: seq<seq<string>>, n: nat, line: nat)
    requires forall i :: 0 <= i < |rows| ==> |rows[i]| == n
    ensures Complaints(rows, n, line) == []
    decreases |rows|
  {
    if rows != [] { NothingToSay(rows[1..], n, line + Inner(rows[0]) + 1); }
  }

  lemma AllFit(rows: seq<seq<string>>, n: nat)
    requires forall i :: 0 <= i < |rows| ==> |rows[i]| == n
    ensures FittedAll(rows, n) == BoundAll(rows)
  {
    forall i | 0 <= i < |rows| ensures Fitted(rows[i], n) == Bound(rows[i]) {
    }
  }

  /** Any table of non-NULL strings written by MODE_Csv is imported as exactly the same rows and
      columns, and the import has nothing to report. */
  lemma RoundTrip(rows: seq<seq<string>>, nCol: nat, sep: char, rsep: string)
    requires nCol > 0 && GoodSeparator(sep) && RowEnd(rsep)
    requires forall i :: 0 <= i < |rows| ==> GoodRow(rows[i]) && |rows[i]| == nCol
    ensures var text, binds := TableText(rows, [sep], rsep), Nulls(nCol);
            var (got, k) := ImportRows(text, Cursor(0, 1, 0, []), binds, [], sep, LF);
            got == BoundAll(rows) && k.log == []
  {
    TableBack(rows, nCol, sep, rsep);
    AllFit(rows, nCol);
    NothingToSay(rows, nCol, 1);
  }

  /** The writer and then the reader. */
  method WriteThenImport(rows: seq<seq<string>>, nCol: nat, sep: char, rsep: string)
    returns (got: seq<Row>, log: seq<Message>)
    requires nCol > 0 && GoodSeparator(sep) && RowEnd(rsep) && forall i :: 0 <= i < |rows| ==> GoodRow(rows[i])
    ensures got == FittedAll(rows, nCol) && log == Complaints(rows, nCol, 1)
    ensures (forall i :: 0 <= i < |rows| ==> |rows[i]| == nCol) ==> got == BoundAll(rows) && log == []
  {
    var shell := new Shell([sep], rsep, "");
    shell.OutputTable(rows);
    assert shell.out == TableText(rows, [sep], rsep);
    var ctx := new ImportCtx(shell.out, sep, LF);
    TableBack(rows, nCol, sep, rsep);
    got := ctx.Import(nCol);
    log := ctx.log;
    if forall i :: 0 <= i < |rows| ==> |rows[i]| == nCol {
      AllFit(rows, nCol);
      NothingToSay(rows, nCol, 1);
    }
  }
}
