/** Reading lines of any length into a buffer that grows. */
module GetLine {
  import opened Wrappers
  import opened CString

  const LF: char := '\n'
  const CR: char := '\r'

  // ---------------------------------------------------------------- what a line is

  predicate OneLine(s: string) {
    forall i :: 0 <= i < |s| ==> s[i] != LF
  }

  /** One past the first LF, or the whole input. */
  function LineEnd(s: string): (e: nat)
    ensures e <= |s| && (s != "" ==> 0 < e)
    ensures forall i :: 0 <= i < e - 1 ==> s[i] != LF
    ensures e < |s| ==> s[e - 1] == LF
  {
    if s == "" then 0 else if s[0] == LF then 1 else 1 + LineEnd(s[1..])
  }

  /** Without a final LF or CRLF. */
  function Stripped(s: string): string {
    if s == "" || s[|s| - 1] != LF then s
    else if |s| > 1 && s[|s| - 2] == CR then s[..|s| - 2]
    else s[..|s| - 1]
  }

  function LinesOf(s: string): seq<string> {
    if s == "" then [] else [Stripped(s[..LineEnd(s)])] + LinesOf(s[LineEnd(s)..])
  }

  lemma OneLineMore(s: string, n: nat)
    requires n <= |s| && (n > 0 ==> OneLine(s[..n - 1]) && s[n - 1] != LF)
    ensures OneLine(s[..n])
  {
    assert forall i :: 0 <= i < n - 1 ==> s[i] == s[..n - 1][i];
  }

  lemma LineEndIs(s: string, e: nat)
    requires 0 < e <= |s| && OneLine(s[..e - 1]) && (s[e - 1] == LF || e == |s|)
    ensures LineEnd(s) == e
  {
    var found := LineEnd(s);
    assert forall i :: 0 <= i < e - 1 ==> s[i] == s[..e - 1][i];
  }

  // ---------------------------------------------------------------- lines as they are written

  datatype Line = Line(text: string, ending: string)

  function Written(lines: seq<Line>): string {
    if lines == [] then "" else lines[0].text + lines[0].ending + Written(lines[1..])
  }

  function Texts(lines: seq<Line>): seq<string> {
    if lines == [] then [] else [lines[0].text] + Texts(lines[1..])
  }

  /** A line ends in LF or CRLF; only the last may end in neither, if it has anything in it. */
  predicate Proper(lines: seq<Line>) {
    forall i :: 0 <= i < |lines| ==>
      && OneLine(lines[i].text)
      && match lines[i].ending
         case "\n" => lines[i].text == "" || lines[i].text[|lines[i].text| - 1] != CR
         case "\r\n" => true
         case "" => i == |lines| - 1 && lines[i].text != ""
         case _ => false
  }

  /** The first line of an input, given what it is made of. */
  lemma FirstBack(line: Line, rest: string)
    requires Proper([line]) && (line.ending == "" ==> rest == "")
    ensures var s := line.text + line.ending + rest;
            && s != "" && s[LineEnd(s)..] == rest && Stripped(s[..LineEnd(s)]) == line.text
  {
    assert [line][0] == line;
    var whole := line.text + line.ending;
    var s := whole + rest;
    assert s[..|whole|] == whole && s[..|whole| - 1] == whole[..|whole| - 1];
    LineEndIs(s, |whole|);
  }

  /** However lines are ended, reading gives back exactly their texts. */
  lemma {:induction false} LinesBack(lines: seq<Line>)
    requires Proper(lines)
    ensures LinesOf(Written(lines)) == Texts(lines)
  {
    if lines != [] {
      assert Proper([lines[0]]) by { assert [lines[0]][0] == lines[0]; }
      assert lines[0].ending == "" ==> lines[1..] == [];
      FirstBack(lines[0], Written(lines[1..]));
      LinesBack(lines[1..]);
    }
  }

  /** Every input is written that way, so the lines are determined by the input. */
  lemma {:induction false} EveryInput(s: string) returns (lines: seq<Line>)
    ensures Proper(lines) && Written(lines) == s && Texts(lines) == LinesOf(s)
  {
    if s == "" {
      lines := [];
    } else {
      var line := FirstLine(s);
      var rest := EveryInput(s[LineEnd(s)..]);
      lines := [line] + rest;
      ProperFirst(line, rest);
      FirstThen(s, LineEnd(s), line, rest);
    }
  }

  function FirstLine(s: string): (line: Line)
    requires s != ""
    ensures line.text == Stripped(s[..LineEnd(s)])
    ensures line.text + line.ending == s[..LineEnd(s)]
    ensures Proper([line]) && (line.ending == "" ==> LineEnd(s) == |s|)
  {
    var whole := s[..LineEnd(s)];
    var text := Stripped(whole);
    assert whole[|text|..] == if whole == text then "" else if |whole| == |text| + 1 then "\n" else "\r\n";
    Line(text, whole[|text|..])
  }

  /** A line, given where it ends in s, and the lines after it. */
  lemma FirstThen(s: string, e: nat, line: Line, rest: seq<Line>)
    requires s != "" && e == LineEnd(s) && line.text == Stripped(s[..e]) && line.text + line.ending == s[..e]
    requires Written(rest) == s[e..] && Texts(rest) == LinesOf(s[e..])
    ensures Written([line] + rest) == s && Texts([line] + rest) == LinesOf(s)
  {
    WrittenFirst(line, rest);
    Cut(s, e);
    LinesNext(s);
  }

  lemma Cut(s: string, e: nat)
    requires e <= |s|
    ensures s[..e] + s[e..] == s
  {
  }

  lemma WrittenFirst(line: Line, rest: seq<Line>)
    ensures Written([line] + rest) == line.text + line.ending + Written(rest)
    ensures Texts([line] + rest) == [line.text] + Texts(rest)
  {
    assert ([line] + rest)[1..] == rest;
  }

  lemma ProperFirst(line: Line, rest: seq<Line>)
    requires Proper([line]) && Proper(rest) && (line.ending == "" ==> rest == [])
    ensures Proper([line] + rest)
  {
    assert [line][0] == line;
    forall i | 0 < i < |[line] + rest| ensures ([line] + rest)[i] == rest[i - 1] { }
  }

  // ---------------------------------------------------------------- the reader

  class File {
    var left: string

    constructor (text: string)
      ensures left == text
    {
      left := text;
    }

    /** Reads at most size - 1 bytes to z[n..], stopping after LF, and adds a terminator. */
    method Fgets(z: array<char>, n: nat, size: nat) returns (ok: bool, ghost k: nat)
      requires 1 < size && n + size <= z.Length
      modifies this, z
      ensures ok == (old(left) != "")
      ensures k <= |old(left)| && k < size && left == old(left)[k..]
      ensures ok ==> 0 < k && z[n..n + k] == old(left)[..k] && z[n + k] == NUL
      ensures OneLine(old(left)[..if k > 0 then k - 1 else 0])
      ensures ok && left != "" && k < size - 1 ==> z[n + k - 1] == LF
      ensures forall i :: 0 <= i < n || (!ok && n <= i < z.Length) ==> z[i] == old(z[i])
    {
      ok := left != "";
      k := 0;
      if ok {
        var i := 0;
        while i < size - 1 && left != "" && (i == 0 || z[n + i - 1] != LF)
          invariant i <= |old(left)| && i < size && left == old(left)[i..]
          invariant i > 0 || left != ""
          invariant z[n..n + i] == old(left)[..i]
          invariant OneLine(old(left)[..if i > 0 then i - 1 else 0])
          invariant forall j :: 0 <= j < n ==> z[j] == old(z[j])
          decreases size - i
        {
          ghost var before := z[n..n + i];
          z[n + i] := left[0];
          left := left[1..];
          i := i + 1;
          assert z[n..n + i] == before + [z[n + i - 1]];
          assert forall j :: 0 <= j < i - 1 ==> old(left)[j] == before[j];
        }
        z[n + i] := NUL;
        k := i;
      }
    }

    /** Reads on at n, and moves n to the new end of what was read of s. */
    method ReadChunk(z: array<char>, n: nat, size: nat, ghost s: string) returns (more: bool, m: nat)
      requires NulFree(s) && n <= |s| && left == s[n..] && OneLine(s[..n])
      requires 1 < size && n + size <= z.Length && z[..n] == s[..n]
      modifies this, z
      ensures n <= m <= |s| && m < n + size && left == s[m..]
      ensures more == (n < m) && (!more ==> m == |s|)
      ensures z[..m] == s[..m] && OneLine(s[..if m > n then m - 1 else n])
    {
      ghost var k;
      more, k := Fgets(z, n, size);
      m := n;
      assert z[..n] == s[..n];
      if more {
        assert z[..n + k] == s[..n + k] by {
          assert z[..n + k] == z[..n] + z[n..n + k];
        }
        m := Terminator(z, n, n + k, s);
        assert forall i :: n <= i < m - 1 ==> s[i] == s[n..][..k - 1][i - n];
      }
    }

    /** Reads on into a buffer with room for it; done at the end of the line or of the file. */
    method ReadMore(zIn: array?<char>, nIn: nat, nLineIn: nat, ghost s: string)
      returns (zLine: array?<char>, n: nat, nLine: nat, done: bool)
      requires NulFree(s) && nIn <= |s| && left == s[nIn..] && OneLine(s[..nIn])
      requires if zIn == null then nIn == 0 && nLineIn == 0 else nIn < nLineIn <= zIn.Length && 100 <= nLineIn
      requires nIn > 0 ==> zIn[..nIn] == s[..nIn]
      modifies this, zIn
      ensures zLine == null || zLine == zIn || fresh(zLine)
      ensures done ==> (zLine == null <==> s == "") && left == s[LineEnd(s)..]
      ensures done && zLine != null ==> 100 <= zLine.Length && CStr(zLine[..]) == Stripped(s[..LineEnd(s)])
      ensures !done ==> zLine != null && n < nLine <= zLine.Length && 100 <= nLine
      ensures !done ==> nIn < n <= |s| && left == s[n..] && zLine[..n] == s[..n] && OneLine(s[..n])
    {
      zLine, nLine := Grow(zIn, nIn, nLineIn);
      var more;
      more, n := ReadChunk(zLine, nIn, nLine - nIn, s);
      done := true;
      if !more {
        if n == 0 {
          zLine := null;
        } else {
          zLine[n] := NUL;
          Terminated(zLine[..], s, n);
        }
      } else if n > 0 && zLine[n - 1] == LF {
        EndLine(zLine, n, s);
      } else {
        OneLineMore(s, n);
        done := false;
      }
    }

    /** The next line, in the buffer given or a larger one; null at the end of the file. */
    method LocalGetline(zIn: array?<char>) returns (zLine: array?<char>)
      requires NulFree(left) && (zIn != null ==> 100 <= zIn.Length)
      modifies this, zIn
      ensures zLine == null <==> old(left) == ""
      ensures zLine != null ==> (zLine == zIn || fresh(zLine)) && 100 <= zLine.Length
      ensures zLine != null ==> CStr(zLine[..]) == Stripped(old(left)[..LineEnd(old(left))])
      ensures left == old(left)[LineEnd(old(left))..]
    {
      ghost var s := left;
      zLine := zIn;
      var nLine := if zLine == null then 0 else 100;
      var n: nat := 0;
      while true
        invariant if zLine == null then n == 0 && nLine == 0 else n < nLine <= zLine.Length && 100 <= nLine
        invariant zLine == null || zLine == zIn || fresh(zLine)
        invariant n <= |s| && left == s[n..]
        invariant n > 0 ==> zLine[..n] == s[..n]
        invariant OneLine(s[..n])
        decreases |left|
      {
        var done;
        zLine, n, nLine, done := ReadMore(zLine, n, nLine, s);
        if done { break; }
      }
    }
  }

  /** realloc, when fewer than 100 bytes are left. */
  method Grow(zLine: array?<char>, n: nat, nLine: nat) returns (z: array<char>, size: nat)
    requires if zLine == null then n == 0 && nLine == 0 else n < nLine <= zLine.Length && 100 <= nLine
    ensures z == zLine || fresh(z)
    ensures n + 100 <= size <= z.Length && nLine <= size
    ensures n > 0 ==> z[..n] == zLine[..n]
  {
    if zLine != null && n + 100 <= nLine {
      return zLine, nLine;
    }
    size := nLine * 2 + 100;
    z := new char[size];
    for i := 0 to if zLine == null then 0 else nLine
      invariant forall j :: 0 <= j < i ==> z[j] == zLine[j]
    {
      z[i] := zLine[i];
    }
  }

  method Terminator(z: array<char>, from: nat, ghost end: nat, ghost s: string) returns (n: nat)
    requires from <= end < z.Length && end <= |s| && NulFree(s) && z[..end] == s[..end] && z[end] == NUL
    ensures n == end
  {
    n := from;
    while z[n] != NUL
      invariant n <= end
      decreases end - n
    {
      n := n + 1;
    }
  }

  /** Ends the line before its LF or CRLF. */
  method EndLine(zLine: array<char>, end: nat, ghost s: string)
    requires 0 < end <= |s| && end < zLine.Length && zLine[..end] == s[..end]
    requires NulFree(s) && s[end - 1] == LF && OneLine(s[..end - 1])
    modifies zLine
    ensures LineEnd(s) == end && CStr(zLine[..]) == Stripped(s[..end])
  {
    LineEndIs(s, end);
    var n := end - 1;
    if n > 0 && zLine[n - 1] == CR { n := n - 1; }
    zLine[n] := NUL;
    assert zLine[..n] == s[..n];
    Terminated(zLine[..], s, n);
  }

  lemma Terminated(z: string, s: string, n: nat)
    requires NulFree(s) && n <= |s| && n < |z| && z[..n] == s[..n] && z[n] == NUL
    ensures CStr(z) == s[..n]
  {
    assert z == s[..n] + [NUL] + z[n + 1..];
    CStrStops(s[..n], z[n + 1..]);
    CStrNulFree(s[..n]);
  }

  lemma LinesNext(s: string)
    ensures LinesOf(s) == (if s == "" then [] else [Stripped(s[..LineEnd(s)])]) + LinesOf(s[LineEnd(s)..])
  {
  }

  /** Repeated calls return the lines of the input, one by one, and then null. */
  method ReadLines(text: string) returns (lines: seq<string>)
    requires NulFree(text)
    ensures lines == LinesOf(text)
  {
    lines := [];
    var file := new File(text);
    LinesNext(text);
    var zLine: array?<char> := file.LocalGetline(null);
    ghost var ahead := LinesOf(text);
    while zLine != null
      invariant fresh(file) && (zLine != null ==> fresh(zLine) && 100 <= zLine.Length)
      invariant NulFree(file.left) && (zLine == null ==> file.left == "")
      invariant ahead == (if zLine == null then [] else [CStr(zLine[..])]) + LinesOf(file.left)
      invariant LinesOf(text) == lines + ahead
      decreases |file.left|, zLine
    {
      ghost var line := CStr(zLine[..]);
      Regroup(lines, [line], LinesOf(file.left));
      lines := lines + [CStr(zLine[..])];
      ahead := LinesOf(file.left);
      LinesNext(file.left);
      zLine := file.LocalGetline(zLine);
    }
  }
}
