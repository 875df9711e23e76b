/** Listing names in columns, in order down each column. */
module TablesLayout {
  import opened Wrappers
  import opened CString

  const BLANK: char := ' '

  function Spaces(n: nat): string {
    seq(n, _ => BLANK)
  }

  /** printf's %-*s */
  function Pad(s: string, w: nat): (r: string)
    ensures |s| <= w ==> |r| == w
  {
    if |s| < w then s + Spaces(w - |s|) else s
  }

  /** The length of the longest name. */
  function Widest(names: seq<string>): (w: nat)
    ensures forall i :: 0 <= i < |names| ==> |names[i]| <= w
    ensures w == 0 || exists i :: 0 <= i < |names| && |names[i]| == w
  {
    if names == [] then 0 else
      var front, last := names[..|names| - 1], names[|names| - 1];
      var w := Widest(front);
      assert w == 0 || exists i :: 0 <= i < |front| && |front[i]| == w && |names[i]| == w;
      assert forall i :: 0 <= i < |front| ==> names[i] == front[i];
      if |last| > w then |last| else w
  }

  function Columns(w: nat): nat {
    if 80 / (w + 2) < 1 then 1 else 80 / (w + 2)
  }

  function Rows(n: nat, c: nat): nat
    requires 0 < c
  {
    (n + c - 1) / c
  }

  // ---------------------------------------------------------------- what is printed

  function Margin(r: nat, j: nat): string {
    if j < r then "" else "  "
  }

  /** The cells j, j + r, j + 2r and so on. */
  function LineFrom(names: seq<string>, r: nat, w: nat, j: nat): string
    requires 0 < r
    decreases |names| - j
  {
    if j >= |names| then "" else Margin(r, j) + Pad(names[j], w) + LineFrom(names, r, w, j + r)
  }

  function LinesFrom(names: seq<string>, r: nat, w: nat, i: nat): string
    requires 0 < r
    decreases r - i
  {
    if i >= r then "" else LineFrom(names, r, w, i) + "\n" + LinesFrom(names, r, w, i + 1)
  }

  function Table(names: seq<string>): string {
    if names == [] then "" else LinesFrom(names, Grid(names).lines, Widest(names), 0)
  }

  class Shell {
    var out: string

    constructor ()
      ensures out == ""
    {
      out := "";
    }

    method Print(s: string)
      modifies this
      ensures out == old(out) + s
    {
      out := out + s;
    }

    method PrintLine(names: seq<string>, r: nat, w: nat, i: nat)
      requires i < r
      modifies this
      ensures out == old(out) + (LineFrom(names, r, w, i) + "\n")
    {
      var j := i;
      while j < |names|
        invariant out + LineFrom(names, r, w, j) == old(out) + LineFrom(names, r, w, i)
      {
        ghost var before, left := out, LineFrom(names, r, w, j + r);
        var zSp := if j < r then "" else "  ";
        Print(zSp + Pad(names[j], w));
        Regroup(before, zSp + Pad(names[j], w), left);
        j := j + r;
      }
      Regroup(old(out), LineFrom(names, r, w, i), "\n");
      Print("\n");
    }

    method PrintTables(azResult: seq<string>)
      modifies this
      ensures out == old(out) + Table(azResult)
    {
      if azResult == [] { return; }
      var maxlen := 0;
      for i := 0 to |azResult|
        invariant maxlen == Widest(azResult[..i])
      {
        var len := |azResult[i]|;
        assert azResult[..i + 1][..i] == azResult[..i];
        if len > maxlen { maxlen := len; }
      }
      assert azResult[..|azResult|] == azResult;
      var nPrintCol := 80 / (maxlen + 2);
      if nPrintCol < 1 { nPrintCol := 1; }
      var nPrintRow := (|azResult| + nPrintCol - 1) / nPrintCol;
      assert nPrintRow == Grid(azResult).lines;
      PrintLines(azResult, nPrintRow, maxlen);
    }

    method PrintLines(names: seq<string>, r: nat, w: nat)
      requires 0 < r
      modifies this
      ensures out == old(out) + LinesFrom(names, r, w, 0)
    {
      for i := 0 to r
        invariant out + LinesFrom(names, r, w, i) == old(out) + LinesFrom(names, r, w, 0)
      {
        ghost var before := out;
        PrintLine(names, r, w, i);
        Regroup(before, LineFrom(names, r, w, i) + "\n", LinesFrom(names, r, w, i + 1));
      }
    }
  }

  // ---------------------------------------------------------------- sums instead of products

  function Times(k: nat, a: nat): nat {
    if k == 0 then 0 else Times(k - 1, a) + a
  }

  lemma {:induction false} TimesIs(k: nat, a: nat)
    ensures Times(k, a) == k * a
  {
    if k > 0 {
      TimesIs(k - 1, a);
      assert k * a == (k - 1) * a + a;
    }
  }

  lemma {:induction false} TimesGrows(k: nat, m: nat, a: nat)
    requires k <= m
    ensures Times(k, a) <= Times(m, a)
  {
    if k < m { TimesGrows(k, m - 1, a); }
  }

  // ---------------------------------------------------------------- the shape of the table

  lemma Cancel(c: nat, r: nat, m: nat)
    requires c * r < c * m
    ensures r < m
  {
    TimesIs(r, c);
    TimesIs(m, c);
    if m <= r { TimesGrows(m, r, c); }
  }

  lemma RowsEnough(n: nat, c: nat)
    requires 0 < n && 0 < c
    ensures 0 < Rows(n, c) <= n && n <= Times(c, Rows(n, c))
  {
    var r := Rows(n, c);
    assert c * r + (n + c - 1) % c == n + c - 1;
    TimesIs(c, r);
    TimesIs(c, n);
    TimesGrows(1, c, n);
    assert c * (n + 1) == c * n + c;
    Cancel(c, r, n + 1);
  }

  lemma ColumnsFit(w: nat)
    ensures var c := Columns(w); 0 < c && (c == 1 || Times(c, w + 2) <= 80)
  {
    var c := Columns(w);
    TimesIs(c, w + 2);
    assert 80 / (w + 2) * (w + 2) + 80 % (w + 2) == 80;
  }

  lemma ColumnsTight(w: nat)
    ensures 80 < Times(Columns(w) + 1, w + 2)
  {
    var q := 80 / (w + 2);
    assert 80 == q * (w + 2) + 80 % (w + 2);
    TimesIs(q, w + 2);
    TimesGrows(q + 1, Columns(w) + 1, w + 2);
  }

  lemma RowsTight(n: nat, c: nat)
    requires 0 < n && 0 < c && 0 < Rows(n, c)
    ensures Times(c, Rows(n, c) - 1) < n
  {
    var r := Rows(n, c);
    assert n + c - 1 == c * r + (n + c - 1) % c;
    TimesIs(c, r - 1);
    OneLess(c, r);
  }

  lemma OneLess(c: nat, r: nat)
    requires 0 < r
    ensures c * (r - 1) == c * r - c
  {
  }

  datatype Shape = Shape(lines: nat, columns: nat)

  /** As many columns as fit, but at least one, and no more lines than the names need. */
  function Grid(names: seq<string>): (g: Shape)
    requires names != []
    ensures 0 < g.lines <= |names| && 0 < g.columns
    ensures Times(g.columns, g.lines - 1) < |names| <= Times(g.columns, g.lines)
    ensures g.columns == 1 || Times(g.columns, Widest(names) + 2) <= 80
    ensures 80 < Times(g.columns + 1, Widest(names) + 2)
  {
    var c := Columns(Widest(names));
    ColumnsFit(Widest(names));
    RowsEnough(|names|, c);
    ColumnsTight(Widest(names));
    RowsTight(|names|, c);
    Shape(Rows(|names|, c), c)
  }

  // ---------------------------------------------------------------- where each name is

  predicate Within(names: seq<string>, w: nat) {
    forall i :: 0 <= i < |names| ==> |names[i]| <= w
  }

  /** How many cells there are from j on in its line. */
  function Cells(n: nat, r: nat, j: nat): nat
    requires 0 < r
    decreases n - j
  {
    if j >= n then 0 else 1 + Cells(n, r, j + r)
  }

  lemma {:induction false} CellsAre(n: nat, r: nat, j: nat, k: nat)
    requires 0 < r
    ensures k < Cells(n, r, j) <==> j + Times(k, r) < n
    decreases n - j
  {
    if k > 0 && j < n {
      CellsAre(n, r, j + r, k - 1);
    }
  }

  /** Cell k of the line from j on: where it is, and what is in it. */
  lemma {:induction false} CellAt(names: seq<string>, r: nat, w: nat, j: nat, k: nat, x: nat, pos: nat)
    requires 0 < r && Within(names, w) && x == j + Times(k, r) < |names|
    requires pos == Times(k, w + 2) + |Margin(r, j)|
    ensures Holds(LineFrom(names, r, w, j), pos, Pad(names[x], w))
    decreases k
  {
    var margin, cell, rest := Margin(r, j), Pad(names[j], w), LineFrom(names, r, w, j + r);
    if k == 0 {
      HoldsBetween(margin, cell, rest);
    } else {
      var at := Times(k - 1, w + 2) + 2;
      CellAt(names, r, w, j + r, k - 1, x, at);
      HoldsLater(margin + cell, rest, at, Pad(names[x], w), pos);
    }
  }

  lemma HoldsBetween(before: string, u: string, after: string)
    ensures Holds(before + u + after, |before|, u)
  {
  }

  lemma HoldsLater(before: string, s: string, at: nat, u: string, pos: nat)
    requires Holds(s, at, u) && pos == |before| + at
    ensures Holds(before + s, pos, u)
  {
  }

  lemma {:induction false} LineWidth(names: seq<string>, r: nat, w: nat, j: nat)
    requires 0 < r && Within(names, w)
    ensures j < r && j < |names| ==> |LineFrom(names, r, w, j)| + 2 == Times(Cells(|names|, r, j), w + 2)
    ensures r <= j ==> |LineFrom(names, r, w, j)| == Times(Cells(|names|, r, j), w + 2)
    decreases |names| - j
  {
    if j < |names| {
      LineWidth(names, r, w, j + r);
      var c := Cells(|names|, r, j + r);
      assert Cells(|names|, r, j) == c + 1 && Times(c + 1, w + 2) == Times(c, w + 2) + w + 2;
      assert |LineFrom(names, r, w, j)| == |Margin(r, j)| + w + |LineFrom(names, r, w, j + r)|;
    }
  }

  lemma {:induction false} Place(r: nat, j: nat) returns (i: nat, k: nat)
    requires 0 < r
    ensures i < r && j == i + Times(k, r)
  {
    if j < r { i, k := j, 0; } else { i, k := Place(r, j - r); k := k + 1; }
  }

  lemma {:induction false} OnePlace(r: nat, i: nat, k: nat, i': nat, k': nat)
    requires i < r && i' < r && i + Times(k, r) == i' + Times(k', r)
    ensures i == i' && k == k'
  {
    if k < k' { TimesGrows(k + 1, k', r); } else if k' < k { TimesGrows(k' + 1, k, r); }
  }

  function LineOf(names: seq<string>, i: nat): string
    requires names != []
  {
    LineFrom(names, Grid(names).lines, Widest(names), i)
  }

  /** The name in column k of line i; columns are filled one after the other. */
  function NameAt(g: Shape, i: nat, k: nat): nat {
    i + Times(k, g.lines)
  }

  /** From pos on, w bytes wide: the name and then blanks. */
  predicate InCell(line: string, pos: nat, name: string, w: nat) {
    && |name| <= w && pos + w <= |line| && line[pos..pos + |name|] == name
    && forall x :: pos + |name| <= x < pos + w ==> line[x] == ' '
  }

  lemma PadFills(line: string, pos: nat, name: string, w: nat)
    requires |name| <= w && Holds(line, pos, Pad(name, w))
    ensures InCell(line, pos, name, w)
  {
    var cell := Pad(name, w);
    assert cell == name + Spaces(w - |name|);
    HoldsParts(line, pos, name, Spaces(w - |name|));
    forall x | pos + |name| <= x < pos + w ensures line[x] == ' ' {
      HoldsAt(line, pos + |name|, Spaces(w - |name|), x - pos - |name|);
    }
  }

  /** Every name is printed in some cell of the grid, and in only one. */
  lemma EachName(names: seq<string>, j: nat) returns (i: nat, k: nat)
    requires j < |names|
    ensures var g := Grid(names);
            && i < g.lines && k < g.columns && NameAt(g, i, k) == j
            && InCell(LineOf(names, i), Times(k, Widest(names) + 2), names[j], Widest(names))
            && forall i', k' | 0 <= i' < g.lines && 0 <= k' && NameAt(g, i', k') == j :: i' == i && k' == k
  {
    var g := Grid(names);
    i, k := Place(g.lines, j);
    CellAt(names, g.lines, Widest(names), i, k, j, Times(k, Widest(names) + 2));
    PadFills(LineOf(names, i), Times(k, Widest(names) + 2), names[j], Widest(names));
    if g.columns <= k { TimesGrows(g.columns, k, g.lines); }
    forall i', k' | 0 <= i' < g.lines && 0 <= k' && NameAt(g, i', k') == j ensures i' == i && k' == k {
      OnePlace(g.lines, i', k', i, k);
    }
  }

  /** A line is nothing but its cells, and has no more of them than there are columns. */
  lemma EachLine(names: seq<string>, i: nat)
    requires names != [] && i < Grid(names).lines
    ensures var cells := Cells(|names|, Grid(names).lines, i);
            && 0 < cells <= Grid(names).columns
            && |LineOf(names, i)| + 2 == Times(cells, Widest(names) + 2)
            && forall k: nat :: k < cells <==> NameAt(Grid(names), i, k) < |names|
  {
    var g := Grid(names);
    CellsAre(|names|, g.lines, i, g.columns);
    LineWidth(names, g.lines, Widest(names), i);
    forall k: nat ensures k < Cells(|names|, g.lines, i) <==> NameAt(g, i, k) < |names| {
      CellsAre(|names|, g.lines, i, k);
    }
  }

  lemma LineFits(names: seq<string>, i: nat)
    requires names != [] && i < Grid(names).lines
    ensures Widest(names) <= |LineOf(names, i)| && (Widest(names) <= 80 ==> |LineOf(names, i)| <= 80)
  {
    var g, w := Grid(names), Widest(names);
    EachLine(names, i);
    var cells := Cells(|names|, g.lines, i);
    TimesGrows(1, cells, w + 2);
    TimesGrows(cells, g.columns, w + 2);
  }

  /** No line is wider than 80 exactly when no name is. */
  lemma Width(names: seq<string>)
    requires names != []
    ensures (forall i :: 0 <= i < Grid(names).lines ==> |LineOf(names, i)| <= 80) <==> Widest(names) <= 80
  {
    forall i | 0 <= i < Grid(names).lines ensures Widest(names) <= 80 ==> |LineOf(names, i)| <= 80 {
      LineFits(names, i);
    }
    LineFits(names, 0);
  }
}
