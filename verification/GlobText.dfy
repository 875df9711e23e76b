/** What testcase_glob takes each piece of a pattern for, told from the text of the pattern. */
module GlobText {
  import opened Wrappers
  import opened CString
  import opened Glob

  // ---------------------------------------------------------------- classes as they are written

  function ItemText(item: Item): string {
    match item
    case One(c) => [c]
    case Range(lo, hi) => [lo, '-', hi]
  }

  function ItemsText(items: seq<Item>): string {
    if items == [] then "" else ItemText(items[0]) + ItemsText(items[1..])
  }

  /** Bytes that stand for themselves in a class, wherever they come. */
  predicate Ordinary(c: char) {
    c != NUL && c != ']' && c != '-'
  }

  /** A byte, or a range from an ASCII byte on. */
  predicate Writable(item: Item) {
    match item
    case One(c) => Ordinary(c)
    case Range(lo, hi) => Ordinary(lo) && lo as int < 128 && hi != NUL && hi != ']'
  }

  /** What an item is written for.  A range always has its first byte, even if its last is less. */
  predicate Admits(item: Item, c: char) {
    match item
    case One(d) => c == d
    case Range(lo, hi) => c == lo || (Signed(c) >= Signed(lo) && Signed(c) <= Signed(hi))
  }

  predicate AnyAdmits(items: seq<Item>, c: char) {
    exists k :: 0 <= k < |items| && Admits(items[k], c)
  }

  lemma AnyAdmitsFirst(items: seq<Item>, c: char)
    requires items != []
    ensures AnyAdmits(items, c) <==> Admits(items[0], c) || AnyAdmits(items[1..], c)
  {
    if k :| 0 <= k < |items[1..]| && Admits(items[1..][k], c) {
      assert Admits(items[k + 1], c);
    }
    if k :| 0 <= k < |items| && Admits(items[k], c) {
      assert k > 0 ==> Admits(items[1..][k - 1], c);
    }
  }

  /** The class is closed by the first bracket, if there is one. */
  lemma {:induction false} ItemsEnd(g: string, i: nat, prior: char)
    requires i <= |g|
    ensures match Items(g, i, prior)
            case NoBracket => forall k :: i <= k < |g| ==> g[k] != ']'
            case Listed(_, next) => g[next - 1] == ']' && forall k :: i <= k < next - 1 ==> g[k] != ']'
    decreases |g| - i
  {
    if i < |g| && g[i] != ']' {
      if g[i] == '-' && At(g, i + 1) != ']' && i + 1 < |g| && Signed(prior) > 0 {
        ItemsEnd(g, i + 2, NUL);
      } else {
        ItemsEnd(g, i + 1, g[i]);
      }
    }
  }

  /** The bytes of one item are read as that item, whatever was before it. */
  lemma ItemBack(g: string, i: nat, prior: char, item: Item, c: char) returns (last: char)
    requires Writable(item) && Holds(g, i, ItemText(item)) && i + |ItemText(item)| < |g|
    ensures var r, rest := Items(g, i, prior), Items(g, i + |ItemText(item)|, last);
            && r.Listed? == rest.Listed?
            && (r.Listed? ==>
                  r.next == rest.next && (InItems(c, r.items) <==> Admits(item, c) || InItems(c, rest.items)))
  {
    HoldsAt(g, i, ItemText(item), 0);
    match item
    case One(d) =>
      last := d;
      var rest := Items(g, i + 1, d);
      if rest.Listed? { InItemsFirst(c, One(d), rest.items); }
    case Range(lo, hi) =>
      HoldsAt(g, i, ItemText(item), 1);
      HoldsAt(g, i, ItemText(item), 2);
      last := NUL;
      var rest := Items(g, i + 3, NUL);
      assert Items(g, i, prior).Listed? == Items(g, i + 1, lo).Listed? == rest.Listed?;
      if rest.Listed? {
        InItemsFirst(c, item, rest.items);
        InItemsFirst(c, One(lo), [item] + rest.items);
      }
  }

  lemma {:induction false} ItemsBack(g: string, i: nat, prior: char, items: seq<Item>, c: char)
    requires Holds(g, i, ItemsText(items) + "]") && forall item <- items :: Writable(item)
    ensures var r := Items(g, i, prior);
            r.Listed? && r.next == i + |ItemsText(items)| + 1 && (InItems(c, r.items) <==> AnyAdmits(items, c))
    decreases |items|
  {
    HoldsParts(g, i, ItemsText(items), "]");
    HoldsAt(g, i + |ItemsText(items)|, "]", 0);
    if items != [] {
      var first, rest := ItemText(items[0]), ItemsText(items[1..]);
      Regroup(first, rest, "]");
      HoldsParts(g, i, first, rest + "]");
      var last := ItemBack(g, i, prior, items[0], c);
      ItemsBack(g, i + |first|, last, items[1..], c);
      AnyAdmitsFirst(items, c);
    }
  }

  /** A class: an optional caret, an optional closing bracket that is a member, and items. */
  datatype Written = Written(caret: bool, bracket: bool, items: seq<Item>)

  function ClassText(w: Written): string {
    "[" + (if w.caret then "^" else "") + ((if w.bracket then "]" else "") + (ItemsText(w.items) + "]"))
  }

  /** The class has a member, and a first item that is not taken for the caret. */
  predicate WellWritten(w: Written) {
    && (forall item <- w.items :: Writable(item))
    && (w.bracket || w.items != [])
    && (!w.caret && !w.bracket ==> ItemText(w.items[0])[0] != '^')
  }

  predicate Accepts(w: Written, c: char) {
    if w.caret then !(w.bracket && c == ']') && !AnyAdmits(w.items, c)
    else (w.bracket && c == ']') || AnyAdmits(w.items, c)
  }

  /** After the caret: the class up to its end, wherever it is in the pattern. */
  lemma ClassRest(g: string, j: nat, bracket: bool, items: seq<Item>, c: char)
    requires Holds(g, j, (if bracket then "]" else "") + (ItemsText(items) + "]"))
    requires (forall item <- items :: Writable(item)) && (bracket || items != [])
    ensures At(g, j) == ']' <==> bracket
    ensures var r := Items(g, if bracket then j + 1 else j, NUL);
            && r.Listed? && r.next == j + |(if bracket then "]" else "") + (ItemsText(items) + "]")|
            && (InItems(c, r.items) <==> AnyAdmits(items, c))
  {
    var open, rest := if bracket then "]" else "", ItemsText(items) + "]";
    HoldsParts(g, j, open, rest);
    HoldsAt(g, j, open + rest, 0);
    ItemsBack(g, j + |open|, NUL, items, c);
    if !bracket { assert (open + rest)[0] == ItemText(items[0])[0]; }
  }

  /** A written class is read as one, and what it accepts are the bytes listed, or with a caret all
      the others. */
  lemma ClassBack(g: string, i: nat, w: Written, c: char)
    requires WellWritten(w) && Holds(g, i, ClassText(w))
    ensures var r := ClassAt(g, i + 1);
            && r.Listed? && r.next == i + |ClassText(w)| && (At(g, i + 1) == '^' <==> w.caret)
            && (InClass(c, w.caret, r.items) <==> Accepts(w, c))
  {
    var caret, open := if w.caret then "^" else "", if w.bracket then "]" else "";
    var rest := open + (ItemsText(w.items) + "]");
    HoldsParts(g, i, "[" + caret, rest);
    HoldsAt(g, i, ClassText(w), 1);
    var j := i + |"[" + caret|;
    ClassRest(g, j, w.bracket, w.items, c);
    if w.bracket { InItemsFirst(c, One(']'), Items(g, j + 1, NUL).items); }
    if !w.caret && !w.bracket { assert rest[0] == ItemText(w.items[0])[0]; }
  }

  /** Wherever a class is written in a pattern, it takes one byte of the text, and only one that it
      accepts; the pattern goes on behind it. */
  lemma ClassStep(g: string, i: nat, run: bool, literal: bool, w: Written, z: string, a: nat)
    requires WellWritten(w) && Holds(g, i, ClassText(w)) && a <= |z|
    ensures Matches(Parse(g, i, run, literal), z, a) <==>
            a < |z| && Accepts(w, z[a]) && Matches(Parse(g, i + |ClassText(w)|, false, literal), z, a + 1)
  {
    HoldsAt(g, i, ClassText(w), 0);
    var c := if a < |z| then z[a] else NUL;
    ClassBack(g, i, w, c);
    var r := ClassAt(g, i + 1);
    OneStep(Class(At(g, i + 1) == '^', r.items), Parse(g, r.next, false, literal), z, a);
  }

  lemma ClassAlone(w: Written, c: char)
    requires WellWritten(w)
    ensures Matches(CodePattern(ClassText(w)), [c], 0) <==> Accepts(w, c)
  {
    var g := ClassText(w);
    assert g[0..|g|] == g;
    ClassStep(g, 0, false, true, w, [c], 0);
    assert Parse(g, |g|, false, true) == End && Matches(End, [c], 1);
  }

  // What that says of classes of single bytes, and of one range.

  function Ones(s: string): (items: seq<Item>)
    ensures |items| == |s| && forall k :: 0 <= k < |s| ==> items[k] == One(s[k])
  {
    seq(|s|, k requires 0 <= k < |s| => One(s[k]))
  }

  lemma {:induction false} OnesText(s: string)
    ensures ItemsText(Ones(s)) == s
  {
    if s != "" {
      assert Ones(s)[1..] == Ones(s[1..]);
      OnesText(s[1..]);
    }
  }

  lemma OnesAdmit(s: string, c: char)
    ensures AnyAdmits(Ones(s), c) <==> c in s
  {
    if c in s {
      var k :| 0 <= k < |s| && s[k] == c;
      assert Admits(Ones(s)[k], c);
    }
  }

  lemma ListedBytes(s: string, c: char)
    requires s != "" && forall k :: 0 <= k < |s| ==> Ordinary(s[k])
    ensures s[0] != '^' ==> (Matches(CodePattern("[" + s + "]"), [c], 0) <==> c in s)
    ensures Matches(CodePattern("[^" + s + "]"), [c], 0) <==> c !in s
    ensures Matches(CodePattern("[]" + s + "]"), [c], 0) <==> c == ']' || c in s
    ensures Matches(CodePattern("[^]" + s + "]"), [c], 0) <==> c != ']' && c !in s
  {
    OnesText(s);
    OnesAdmit(s, c);
    Spelling(s);
    forall caret, bracket | caret || bracket || s[0] != '^'
      ensures Matches(CodePattern(ClassText(Written(caret, bracket, Ones(s)))), [c], 0) <==>
              Accepts(Written(caret, bracket, Ones(s)), c)
    {
      assert ItemText(Ones(s)[0]) == [s[0]];
      ClassAlone(Written(caret, bracket, Ones(s)), c);
    }
  }

  lemma Spelling(s: string)
    requires ItemsText(Ones(s)) == s
    ensures ClassText(Written(false, false, Ones(s))) == "[" + s + "]"
    ensures ClassText(Written(true, false, Ones(s))) == "[^" + s + "]"
    ensures ClassText(Written(false, true, Ones(s))) == "[]" + s + "]"
    ensures ClassText(Written(true, true, Ones(s))) == "[^]" + s + "]"
  {
  }

  lemma ListedRange(lo: char, hi: char, c: char)
    requires Ordinary(lo) && lo != '^' && lo <= hi && hi as int < 128 && hi != ']' && c as int < 128
    ensures Matches(CodePattern("[" + [lo, '-', hi] + "]"), [c], 0) <==> lo <= c <= hi
    ensures Matches(CodePattern("[^" + [lo, '-', hi] + "]"), [c], 0) <==> !(lo <= c <= hi)
  {
    var items := [Range(lo, hi)];
    assert ItemsText(items) == [lo, '-', hi] + "" == [lo, '-', hi];
    assert AnyAdmits(items, c) <==> Admits(items[0], c);
    forall caret | true
      ensures Matches(CodePattern(ClassText(Written(caret, false, items))), [c], 0) <==> (lo <= c <= hi) != caret
    {
      ClassAlone(Written(caret, false, items), c);
    }
    assert ClassText(Written(false, false, items)) == "[" + [lo, '-', hi] + "]";
    assert ClassText(Written(true, false, items)) == "[^" + [lo, '-', hi] + "]";
  }

  /** A bracket that no other one closes makes the pattern match nothing.  Right after the bracket, or
      the caret, a closing bracket is a member. */
  lemma NeverClosed(g: string, i: nat, run: bool, literal: bool, z: string, a: nat)
    requires i < |g| && g[i] == '[' && a <= |z|
    requires forall k :: (if At(g, i + 1) == '^' then i + 2 else i + 1) < k < |g| ==> g[k] != ']'
    ensures !Matches(Parse(g, i, run, literal), z, a)
  {
    var j := if At(g, i + 1) == '^' then i + 2 else i + 1;
    if At(g, j) == ']' { ItemsEnd(g, j + 1, NUL); } else { ItemsEnd(g, j, NUL); }
  }

  // ---------------------------------------------------------------- the other rules, on patterns as written

  predicate Special(c: char) {
    c == '*' || c == '?' || c == '[' || c == '#' || IsSpace(c)
  }

  predicate PlainText(u: string) {
    forall k :: 0 <= k < |u| ==> !Special(u[k])
  }

  lemma HoldsFirst(s: string, a: nat, u: string)
    requires u != "" && a <= |s|
    ensures Holds(s, a, u) <==> a < |s| && s[a] == u[0] && Holds(s, a + 1, u[1..])
  {
    assert u == [u[0]] + u[1..];
    if Holds(s, a, u) { HoldsParts(s, a, [u[0]], u[1..]); }
  }

  lemma PlainOne(g: string, i: nat, run: bool, literal: bool, z: string, a: nat)
    requires i < |g| && !Special(g[i]) && a <= |z|
    ensures Matches(Parse(g, i, run, literal), z, a) <==>
            a < |z| && z[a] == g[i] && Matches(Parse(g, i + 1, false, literal), z, a + 1)
  {
    OneStep(Literal(g[i]), Parse(g, i + 1, false, literal), z, a);
  }

  /** Bytes that are not special match themselves. */
  lemma {:induction false} PlainStep(g: string, i: nat, u: string, run: bool, literal: bool, z: string, a: nat)
    requires PlainText(u) && Holds(g, i, u) && a <= |z|
    ensures Matches(Parse(g, i, run, literal), z, a) <==>
            Holds(z, a, u) && Matches(Parse(g, i + |u|, run && u == "", literal), z, a + |u|)
    decreases |u|
  {
    if u != "" {
      HoldsFirst(g, i, u);
      HoldsFirst(z, a, u);
      PlainOne(g, i, run, literal, z, a);
      if a < |z| { PlainStep(g, i + 1, u[1..], false, literal, z, a + 1); }
    }
  }

  /** A pattern without special bytes matches itself, with or without white space behind it. */
  lemma PlainAlone(u: string, z: string)
    requires PlainText(u)
    ensures Matches(CodePattern(u), z, 0) <==> u <= z && AllSpace(z, |u|, |z|)
  {
    assert u[0..|u|] == u;
    PlainStep(u, 0, u, false, true, z, 0);
  }

  /** Before and after a star come the bytes around it, and anything between them. */
  lemma AroundStar(u: string, v: string, z: string)
    requires PlainText(u) && PlainText(v)
    ensures Matches(CodePattern(u + "*" + v), z, 0) <==>
            u <= z && exists b :: |u| <= b <= |z| && Holds(z, b, v) && AllSpace(z, b + |v|, |z|)
  {
    var g := u + "*" + v;
    var n := |u|;
    assert Holds(g, 0, u) && Holds(g, n + 1, v) && g[n] == '*';
    PlainStep(g, 0, u, false, true, z, 0);
    var rest := Parse(g, n + 1, true, true);
    assert Parse(g, n, false, true) == Then(Star, rest);
    forall b | n <= b <= |z|
      ensures Matches(rest, z, b) <==> Holds(z, b, v) && AllSpace(z, b + |v|, |z|)
      ensures Fits(Star, z, n, b)
    {
      PlainStep(g, n + 1, v, true, true, z, b);
    }
  }

  /** Each question mark takes one byte, whatever it is. */
  lemma {:induction false} AnyStep(g: string, i: nat, n: nat, run: bool, literal: bool, z: string, a: nat)
    requires i + n <= |g| && (forall k :: i <= k < i + n ==> g[k] == '?') && a <= |z|
    ensures Matches(Parse(g, i, run, literal), z, a) <==>
            a + n <= |z| && Matches(Parse(g, i + n, run, literal), z, a + n)
    decreases n
  {
    if n > 0 {
      OneStep(Any, Parse(g, i + 1, run, literal), z, a);
      if a < |z| { AnyStep(g, i + 1, n - 1, run, literal, z, a + 1); }
    }
  }

  predicate AllOf(z: string, chars: string) {
    forall k :: 0 <= k < |z| ==> z[k] in chars
  }

  const DIGITS := "0123456789"
  const BLANKS := " \t\n\r" + [11 as char, 12 as char]

  lemma CharLists(c: char)
    ensures IsDigit(c) <==> c in DIGITS
    ensures IsSpace(c) <==> c in BLANKS
  {
  }

  lemma PieceOf(z: string, a: nat, b: nat)
    requires a <= b <= |z|
    ensures AllDigits(z, a, b) ==> AllOf(z[a..b], DIGITS)
    ensures AllSpace(z, a, b) <==> AllOf(z[a..b], BLANKS)
  {
    forall k | a <= k < b ensures z[a..b][k - a] == z[k] && (IsDigit(z[k]) <==> z[k] in DIGITS)
      ensures IsSpace(z[k]) <==> z[k] in BLANKS
    {
      CharLists(z[k]);
    }
  }

  lemma Cut(z: string, d: nat, b: nat)
    requires d <= b <= |z|
    ensures z == z[..d] + z[d..b] + z[b..] && z[b..|z|] == z[b..]
    ensures d == 1 ==> z[..d] == [z[0]]
  {
  }

  predicate IsSign(sign: string) {
    sign == "" || sign == "+" || sign == "-"
  }

  /** # matches one or more digits, with or without a sign. */
  lemma NumberAlone(sign: string, digits: string)
    requires IsSign(sign) && digits != "" && AllOf(digits, DIGITS)
    ensures Matches(CodePattern("#"), sign + digits, 0)
  {
    var z, d, e := sign + digits, |sign|, |sign + digits|;
    forall k | d <= k < e ensures IsDigit(z[k]) {
      assert z[k] == digits[k - d];
      CharLists(z[k]);
    }
    NumberStep(End, z, 0, d, e);
    assert Parse("#", 0, false, true) == Then(Number, End);
  }

  /** Nothing else, but for white space behind it. */
  lemma NumberOnly(z: string) returns (sign: string, digits: string, blank: string)
    requires Matches(CodePattern("#"), z, 0)
    ensures z == sign + digits + blank && IsSign(sign) && digits != ""
    ensures AllOf(digits, DIGITS) && AllOf(blank, BLANKS)
  {
    assert Parse("#", 0, false, true) == Then(Number, End);
    var b :| 0 <= b <= |z| && Fits(Number, z, 0, b) && Matches(End, z, b);
    var d :| 0 <= d < b && SignTo(z, 0, d) && AllDigits(z, d, b) && !IsDigit(At(z, b));
    sign, digits, blank := z[..d], z[d..b], z[b..];
    PieceOf(z, d, b);
    PieceOf(z, b, |z|);
    Cut(z, d, b);
  }

  /** A blank in the pattern takes a whole span of white space, of any length but none. */
  lemma SpanAlone(n: nat, z: string)
    requires n > 0
    ensures Matches(CodePattern(seq(n, _ => ' ')), z, 0) <==> z != "" && AllOf(z, BLANKS)
  {
    var g: string := seq(n, _ => ' ');
    assert SpaceEnd(g, 1) == n;
    assert Parse(g, 0, false, true) == Then(Span, End);
    SpanStep(End, z, 0, SpaceEnd(z, 0));
    PieceOf(z, 0, |z|);
    assert z[0..|z|] == z;
  }
}
