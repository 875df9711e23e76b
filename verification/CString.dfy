/** C strings: bytes up to, and not including, a terminating NUL. */
module CString {

  const NUL: char := '\0'

  predicate NulFree(s: string) {
    forall i :: 0 <= i < |s| ==> s[i] != NUL
  }

  /** Every character is a byte. */
  predicate Bytes(s: string) {
    forall i :: 0 <= i < |s| ==> s[i] as int < 256
  }

  /** The character at i, where the terminator may be read but nothing beyond it. */
  function At(s: string, i: nat): char
    requires i <= |s|
  {
    if i < |s| then s[i] else NUL
  }

  /** isspace and isdigit in the C locale. */
  predicate IsSpace(c: char) {
    c == ' ' || 9 <= c as int <= 13
  }

  predicate IsDigit(c: char) {
    '0' <= c <= '9'
  }

  predicate AllSpace(z: string, a: nat, b: nat)
    requires a <= b <= |z|
  {
    forall k :: a <= k < b ==> IsSpace(z[k])
  }

  /** The end of the white space at i. */
  function SpaceEnd(s: string, i: nat): (e: nat)
    requires i <= |s|
    ensures i <= e <= |s| && AllSpace(s, i, e) && !IsSpace(At(s, e))
    decreases |s| - i
  {
    if i < |s| && IsSpace(s[i]) then SpaceEnd(s, i + 1) else i
  }

  /** The value of a byte held in a signed char. */
  function Signed(c: char): int {
    if (c as int) < 128 then c as int else c as int - 256
  }

  /** The C string a buffer holds: up to the first NUL. */
  function CStr(s: string): string {
    if s == "" || s[0] == NUL then "" else [s[0]] + CStr(s[1..])
  }

  lemma {:induction false} CStrIs(s: string)
    ensures NulFree(CStr(s)) && CStr(s) <= s
    ensures |CStr(s)| < |s| ==> s[|CStr(s)|] == NUL
  {
    if s != "" && s[0] != NUL {
      CStrIs(s[1..]);
    }
  }

  lemma CStrNulFree(s: string)
    requires NulFree(s)
    ensures CStr(s) == s
  {
  }

  /** z with every q doubled. */
  function Doubled(z: string, q: char): string {
    if z == "" then "" else (if z[0] == q then [q, q] else [z[0]]) + Doubled(z[1..], q)
  }

  lemma DoubledOne(c: char, q: char)
    ensures Doubled([c], q) == if c == q then [q, q] else [c]
  {
    assert [c][1..] == "";
  }

  lemma DoubledFirst(z: string, q: char)
    requires z != ""
    ensures Doubled(z, q) == Doubled([z[0]], q) + Doubled(z[1..], q)
  {
    DoubledOne(z[0], q);
  }

  lemma {:induction false} DoubledAppend(y: string, z: string, q: char)
    ensures Doubled(y + z, q) == Doubled(y, q) + Doubled(z, q)
  {
    if y == "" {
      assert y + z == z;
    } else {
      assert (y + z)[1..] == y[1..] + z;
      DoubledAppend(y[1..], z, q);
    }
  }

  /** u is what s holds from pos on. */
  predicate Holds(s: string, pos: nat, u: string) {
    pos + |u| <= |s| && s[pos..pos + |u|] == u
  }

  lemma HoldsAt(s: string, pos: nat, u: string, i: nat)
    requires Holds(s, pos, u) && i < |u|
    ensures s[pos + i] == u[i]
  {
    assert s[pos..pos + |u|][i] == u[i];
  }

  lemma HoldsParts(s: string, pos: nat, u: string, v: string)
    requires Holds(s, pos, u + v)
    ensures Holds(s, pos, u) && Holds(s, pos + |u|, v)
  {
    assert s[pos..pos + |u|] == (u + v)[..|u|];
    assert s[pos + |u|..pos + |u| + |v|] == (u + v)[|u|..];
  }

  /** Bytes after a NUL are not part of the string. */
  lemma {:induction false} CStrStops(s: string, rest: string)
    ensures CStr(s + [NUL] + rest) == CStr(s)
  {
    var t := s + [NUL] + rest;
    if s != "" && s[0] != NUL {
      assert t[1..] == s[1..] + [NUL] + rest;
      CStrStops(s[1..], rest);
    }
  }
}
