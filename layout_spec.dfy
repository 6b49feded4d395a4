/**
 * The textual level layout written by `Level.getSpec`:
 *
 *   {buildingGridSpec: [['d00', 'd01'],['d10', 'd11']]}
 *
 * Rows (one per grid x) are joined by ",", cells of a row (one per grid z)
 * are quoted with single quotes and joined by ", ". Descriptors are opaque
 * strings and are written without any escaping, so a descriptor holding a
 * single quote cannot be read back. `ParseSpecText` reads exactly this
 * grammar; together with `SpecText` it forms a round trip on quote-free
 * layouts.
 */
module LayoutSpec {
  import opened Wrappers

  /** Outer sequence indexed by grid x, inner by grid z, leaves are building descriptors. */
  type GridSpec = seq<seq<string>>

  const SPEC_PREFIX: string := "{buildingGridSpec: "

  /** No descriptor of the layout contains a single quote. */
  predicate QuoteFree(g: GridSpec)
  {
    forall x, z :: 0 <= x < |g| && 0 <= z < |g[x]| ==> '\'' !in g[x][z]
  }

  predicate RowQuoteFree(row: seq<string>)
  {
    forall z :: 0 <= z < |row| ==> '\'' !in row[z]
  }

  // ---------------------------------------------------------------------------
  // Writing

  function Quote(d: string): (text: string)
  {
    "'" + d + "'"
  }

  /** Quoted cells separated by ", ". */
  function CellsText(row: seq<string>): (text: string)
    decreases |row|
  {
    if |row| == 0 then ""
    else if |row| == 1 then Quote(row[0])
    else Quote(row[0]) + ", " + CellsText(row[1..])
  }

  function RowText(row: seq<string>): (text: string)
  {
    "[" + CellsText(row) + "]"
  }

  /** Rows separated by ",". */
  function RowsText(g: GridSpec): (text: string)
    decreases |g|
  {
    if |g| == 0 then ""
    else if |g| == 1 then RowText(g[0])
    else RowText(g[0]) + "," + RowsText(g[1..])
  }

  /** The whole layout text. */
  function SpecText(g: GridSpec): (text: string)
  {
    SPEC_PREFIX + "[" + RowsText(g) + "]" + "}"
  }

  /** Appending a cell appends its quoted text, after a separator when the row was not empty. */
  lemma {:induction false} CellsTextSnoc(row: seq<string>, d: string)
    ensures CellsText(row + [d]) == CellsText(row) + (if |row| == 0 then "" else ", ") + Quote(d)
    decreases |row|
  {
    if |row| == 0 {
      assert row + [d] == [d];
    } else if |row| == 1 {
      assert (row + [d])[1..] == [d];
    } else {
      assert (row + [d])[1..] == row[1..] + [d];
      CellsTextSnoc(row[1..], d);
    }
  }

  /** Appending a row appends its text, after a separator when the grid was not empty. */
  lemma {:induction false} RowsTextSnoc(g: GridSpec, row: seq<string>)
    ensures RowsText(g + [row]) == RowsText(g) + (if |g| == 0 then "" else ",") + RowText(row)
    decreases |g|
  {
    if |g| == 0 {
      assert g + [row] == [row];
    } else if |g| == 1 {
      assert (g + [row])[1..] == [row];
    } else {
      assert (g + [row])[1..] == g[1..] + [row];
      RowsTextSnoc(g[1..], row);
    }
  }

  // ---------------------------------------------------------------------------
  // Reading (exactly the grammar above)

  lemma Assoc(a: string, b: string, c: string, d: string, e: string)
    ensures a + (b + (c + d + e)) == a + b + c + d + e
  {
  }

  /** Splits `s` at its first single quote: the text before it and the text after it. */
  function SplitAtQuote(s: string): (r: Option<(string, string)>)
    ensures r.Some? ==> s == r.value.0 + "'" + r.value.1 && '\'' !in r.value.0
    ensures r.None? <==> '\'' !in s
    decreases |s|
  {
    if |s| == 0 then None
    else if s[0] == '\'' then Some(("", s[1..]))
    else match SplitAtQuote(s[1..])
      case None => None
      case Some((d, rest)) => Some(([s[0]] + d, rest))
  }

  /** Reads one quoted descriptor at the start of `s`. */
  function ParseQuoted(s: string): (r: Option<(string, string)>)
    ensures r.Some? ==> s == Quote(r.value.0) + r.value.1 && '\'' !in r.value.0
  {
    if |s| > 0 && s[0] == '\'' then SplitAtQuote(s[1..]) else None
  }

  lemma SplitAfterComma(t: string)
    requires |t| >= 2 && t[0] == ',' && t[1] == ' '
    ensures t == ", " + t[2..]
  {
  }

  lemma CellsTextCons(d: string, ds: seq<string>, tail: string)
    requires |ds| > 0
    ensures CellsText([d] + ds) + "]" + tail == Quote(d) + (", " + (CellsText(ds) + "]" + tail))
  {
    var row := [d] + ds;
    assert row[0] == d && row[1..] == ds;
    assert CellsText(row) == Quote(d) + ", " + CellsText(ds);
    Assoc(Quote(d), ", ", CellsText(ds), "]", tail);
  }

  lemma RowQuoteFreeCons(d: string, ds: seq<string>)
    requires '\'' !in d && RowQuoteFree(ds)
    ensures RowQuoteFree([d] + ds)
  {
    var row := [d] + ds;
    forall z | 0 <= z < |row| ensures '\'' !in row[z] {
      if z > 0 {
        assert row[z] == ds[z - 1];
      }
    }
  }

  lemma CellsTextOne(s: string, d: string, rest: string)
    requires s == Quote(d) + rest && '\'' !in d
    requires |rest| >= 1 && rest[0] == ']'
    ensures RowQuoteFree([d])
    ensures s == CellsText([d]) + "]" + rest[1..]
  {
    assert rest == "]" + rest[1..];
  }

  /** Reads `'d', 'd', ... 'd']` (at least one cell) and the text after the closing bracket. */
  function ParseCellList(s: string): (r: Option<(seq<string>, string)>)
    ensures r.Some? ==> |r.value.0| > 0 && RowQuoteFree(r.value.0)
    ensures r.Some? ==> s == CellsText(r.value.0) + "]" + r.value.1
    decreases |s|
  {
    match ParseQuoted(s)
    case None => None
    case Some((d, rest)) =>
      if |rest| >= 2 && rest[0] == ',' && rest[1] == ' ' then
        match ParseCellList(rest[2..])
        case None => None
        case Some((ds, tail)) =>
          SplitAfterComma(rest);
          CellsTextCons(d, ds, tail);
          RowQuoteFreeCons(d, ds);
          Some(([d] + ds, tail))
      else if |rest| >= 1 && rest[0] == ']' then
        CellsTextOne(s, d, rest);
        Some(([d], rest[1..]))
      else None
  }

  lemma EmptyRowOf(s: string)
    requires |s| >= 2 && s[0] == '[' && s[1] == ']'
    ensures s == RowText([]) + s[2..]
  {
    assert s == "[]" + s[2..];
  }

  lemma RowTextOf(s: string, cells: seq<string>, rest: string)
    requires |s| >= 1 && s[0] == '['
    requires s[1..] == CellsText(cells) + "]" + rest
    ensures s == RowText(cells) + rest
  {
    assert s == "[" + s[1..];
  }

  /** Reads one bracketed row and the text after it. */
  function ParseRow(s: string): (r: Option<(seq<string>, string)>)
    ensures r.Some? ==> RowQuoteFree(r.value.0) && s == RowText(r.value.0) + r.value.1
  {
    if |s| >= 2 && s[0] == '[' && s[1] == ']' then
      EmptyRowOf(s);
      Some(([], s[2..]))
    else if |s| >= 1 && s[0] == '[' then
      match ParseCellList(s[1..])
      case None => None
      case Some((cells, rest)) =>
        RowTextOf(s, cells, rest);
        Some((cells, rest))
    else None
  }

  lemma RowsTextCons(s: string, row: seq<string>, rest: string, rows: GridSpec, tail: string)
    requires s == RowText(row) + rest && RowQuoteFree(row)
    requires |rest| >= 1 && rest[0] == ','
    requires |rows| > 0 && QuoteFree(rows) && rest[1..] == RowsText(rows) + "]" + tail
    ensures QuoteFree([row] + rows)
    ensures s == RowsText([row] + rows) + "]" + tail
  {
    var g := [row] + rows;
    assert g[0] == row && g[1..] == rows;
    assert RowsText(g) == RowText(row) + "," + RowsText(rows);
    assert rest == "," + rest[1..];
    Assoc(RowText(row), ",", RowsText(rows), "]", tail);
    forall x, z | 0 <= x < |g| && 0 <= z < |g[x]| ensures '\'' !in g[x][z] {
      if x > 0 {
        assert g[x] == rows[x - 1];
      }
    }
  }

  lemma RowsTextOne(s: string, row: seq<string>, rest: string)
    requires s == RowText(row) + rest && RowQuoteFree(row)
    requires |rest| >= 1 && rest[0] == ']'
    ensures QuoteFree([row])
    ensures s == RowsText([row]) + "]" + rest[1..]
  {
    assert rest == "]" + rest[1..];
  }

  /** Reads `row,row,...,row]` (at least one row) and the text after the closing bracket. */
  function ParseRowList(s: string): (r: Option<(GridSpec, string)>)
    ensures r.Some? ==> |r.value.0| > 0 && QuoteFree(r.value.0)
    ensures r.Some? ==> s == RowsText(r.value.0) + "]" + r.value.1
    decreases |s|
  {
    match ParseRow(s)
    case None => None
    case Some((row, rest)) =>
      if |rest| >= 1 && rest[0] == ',' then
        match ParseRowList(rest[1..])
        case None => None
        case Some((rows, tail)) =>
          RowsTextCons(s, row, rest, rows, tail);
          Some(([row] + rows, tail))
      else if |rest| >= 1 && rest[0] == ']' then
        RowsTextOne(s, row, rest);
        Some(([row], rest[1..]))
      else None
  }

  lemma SpecTextOf(s: string, n: nat, g: GridSpec)
    requires n <= |s| && s[..n] == SPEC_PREFIX + "["
    requires s[n..] == RowsText(g) + "]" + "}"
    ensures s == SpecText(g)
  {
    assert s == s[..n] + s[n..];
  }

  /** Reads a whole layout text; anything else, trailing text included, is refused. */
  function ParseSpecText(s: string): (r: Option<GridSpec>)
    ensures r.Some? ==> s == SpecText(r.value) && QuoteFree(r.value)
  {
    var n := |SPEC_PREFIX| + 1;
    if s == SPEC_PREFIX + "[]}" then Some([])
    else if |s| >= n && s[..n] == SPEC_PREFIX + "[" then
      match ParseRowList(s[n..])
      case None => None
      case Some((g, rest)) =>
        if rest == "}" then
          SpecTextOf(s, n, g);
          Some(g)
        else None
    else None
  }

  // ---------------------------------------------------------------------------
  // Round trip

  lemma {:induction false} SplitAtQuoteOf(d: string, rest: string)
    requires '\'' !in d
    ensures SplitAtQuote(d + "'" + rest) == Some((d, rest))
    decreases |d|
  {
    var s := d + "'" + rest;
    if |d| == 0 {
      assert s == "'" + rest;
    } else {
      assert s[1..] == d[1..] + "'" + rest;
      SplitAtQuoteOf(d[1..], rest);
      assert [d[0]] + d[1..] == d;
    }
  }

  lemma ParseQuotedOf(d: string, rest: string)
    requires '\'' !in d
    ensures ParseQuoted(Quote(d) + rest) == Some((d, rest))
  {
    var s := Quote(d) + rest;
    assert s[1..] == d + "'" + rest;
    SplitAtQuoteOf(d, rest);
  }

  lemma DropPrefix(p: string, t: string)
    ensures (p + t)[|p|..] == t
  {
  }

  lemma CellsTextSingle(row: seq<string>, rest: string)
    requires |row| == 1
    ensures CellsText(row) + "]" + rest == Quote(row[0]) + ("]" + rest)
  {
  }

  lemma {:induction false} ParseCellListOf(row: seq<string>, rest: string)
    requires |row| > 0 && RowQuoteFree(row)
    ensures ParseCellList(CellsText(row) + "]" + rest) == Some((row, rest))
    decreases |row|
  {
    if |row| == 1 {
      CellsTextSingle(row, rest);
      ParseQuotedOf(row[0], "]" + rest);
      DropPrefix("]", rest);
      assert [row[0]] == row;
    } else {
      var tail := CellsText(row[1..]) + "]" + rest;
      assert [row[0]] + row[1..] == row;
      CellsTextCons(row[0], row[1..], rest);
      ParseQuotedOf(row[0], ", " + tail);
      DropPrefix(", ", tail);
      ParseCellListOf(row[1..], rest);
    }
  }

  lemma ParseRowOf(row: seq<string>, rest: string)
    requires RowQuoteFree(row)
    ensures ParseRow(RowText(row) + rest) == Some((row, rest))
  {
    var s := RowText(row) + rest;
    if |row| == 0 {
      assert s == "[]" + rest;
      assert s[2..] == rest;
    } else {
      assert s[1..] == CellsText(row) + "]" + rest;
      ParseCellListOf(row, rest);
      // the first cell starts with a quote, so the row is not read as "[]"
      assert CellsText(row)[0] == '\'';
    }
  }

  lemma {:induction false} ParseRowListOf(g: GridSpec, rest: string)
    requires |g| > 0 && QuoteFree(g)
    ensures ParseRowList(RowsText(g) + "]" + rest) == Some((g, rest))
    decreases |g|
  {
    var s := RowsText(g) + "]" + rest;
    assert RowQuoteFree(g[0]) by {
      forall z | 0 <= z < |g[0]| ensures '\'' !in g[0][z] {
        assert '\'' !in g[0][z];
      }
    }
    if |g| == 1 {
      assert s == RowText(g[0]) + ("]" + rest);
      ParseRowOf(g[0], "]" + rest);
      assert ("]" + rest)[1..] == rest;
      assert [g[0]] == g;
    } else {
      var tail := RowsText(g[1..]) + "]" + rest;
      assert s == RowText(g[0]) + ("," + tail);
      ParseRowOf(g[0], "," + tail);
      assert ("," + tail)[1..] == tail;
      assert QuoteFree(g[1..]) by {
        forall x, z | 0 <= x < |g[1..]| && 0 <= z < |g[1..][x]| ensures '\'' !in g[1..][x][z] {
          assert g[1..][x] == g[x + 1];
        }
      }
      ParseRowListOf(g[1..], rest);
      assert [g[0]] + g[1..] == g;
    }
  }

  /** Reading the text written for a quote-free layout gives the layout back. */
  lemma SpecRoundTrip(g: GridSpec)
    requires QuoteFree(g)
    ensures ParseSpecText(SpecText(g)) == Some(g)
  {
    var s := SpecText(g);
    var n := |SPEC_PREFIX| + 1;
    if |g| == 0 {
      assert s == SPEC_PREFIX + "[]}";
    } else {
      assert s[..n] == SPEC_PREFIX + "[";
      assert s[n..] == RowsText(g) + "]" + "}";
      ParseRowListOf(g, "}");
      // a non-empty layout opens its first row right after the outer bracket
      assert RowsText(g)[0] == '[';
      assert s[n] != (SPEC_PREFIX + "[]}")[n];
    }
  }

  /** The layout text is read back exactly when it was written for a quote-free layout. */
  lemma ParseSpecTextExactly(s: string, g: GridSpec)
    ensures ParseSpecText(s) == Some(g) <==> s == SpecText(g) && QuoteFree(g)
  {
    if s == SpecText(g) && QuoteFree(g) {
      SpecRoundTrip(g);
    }
  }

  /** Distinct quote-free layouts are written as distinct texts. */
  lemma SpecTextInjective(g1: GridSpec, g2: GridSpec)
    requires QuoteFree(g1) && QuoteFree(g2)
    requires SpecText(g1) == SpecText(g2)
    ensures g1 == g2
  {
    SpecRoundTrip(g1);
    SpecRoundTrip(g2);
  }

  /** An empty grid is written as an empty bracket pair. */
  lemma EmptySpecText()
    ensures SpecText([]) == "{buildingGridSpec: []}"
  {
  }

}
