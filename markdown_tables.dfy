/**
 * `MarkdownTable` (utils/__init__.py): rows of data held column by column
 * under declared keys, with display labels, an optional summary row, and a
 * pipe-delimited rendering.
 */
module MarkdownTables {
  import opened Wrappers
  import opened Strings
  import opened Cells

  /** `[x.strip() for x in text.split(splitter)]` */
  function ParseNames(text: string, splitter: string): (names: seq<string>)
    requires |splitter| > 0
    ensures |names| == |Split(text, splitter)| >= 1
    ensures forall i :: 0 <= i < |names| ==> names[i] == Strip(Split(text, splitter)[i])
  {
    var parts := Split(text, splitter);
    seq(|parts|, i requires 0 <= i < |parts| => Strip(parts[i]))
  }

  predicate Distinct(keys: seq<string>) {
    forall i, j :: 0 <= i < j < |keys| ==> keys[i] != keys[j]
  }

  function KeySet(keys: seq<string>): set<string> {
    set k | k in keys
  }

  /** Distinct keys make a set of the same size. */
  lemma {:induction false} DistinctKeySetSize(keys: seq<string>)
    requires Distinct(keys)
    ensures |KeySet(keys)| == |keys|
    decreases |keys|
  {
    if keys != [] {
      var rest := keys[..|keys| - 1];
      var last := keys[|keys| - 1];
      assert Distinct(rest);
      DistinctKeySetSize(rest);
      assert KeySet(keys) == KeySet(rest) + {last};
      assert last !in KeySet(rest);
    }
  }

  /** `[f(x) for x in cells]` */
  function MapCells(cells: seq<Cell>, f: Cell -> Cell): (r: seq<Cell>)
    ensures |r| == |cells|
    ensures forall i :: 0 <= i < |cells| ==> r[i] == f(cells[i])
  {
    seq(|cells|, i requires 0 <= i < |cells| => f(cells[i]))
  }

  /** `len([x for x in cells if p(x)])` */
  function CountWhere(cells: seq<Cell>, p: Cell -> bool): (n: nat)
    ensures n <= |cells|
    decreases |cells|
  {
    if cells == [] then 0
    else CountWhere(cells[..|cells| - 1], p) + (if p(cells[|cells| - 1]) then 1 else 0)
  }

  function IndicesWhere(cells: seq<Cell>, p: Cell -> bool): set<int> {
    set i | 0 <= i < |cells| && p(cells[i])
  }

  /** The count is the number of positions whose cell satisfies `p`. */
  lemma {:induction false} CountWhereCountsPositions(cells: seq<Cell>, p: Cell -> bool)
    ensures CountWhere(cells, p) == |IndicesWhere(cells, p)|
    decreases |cells|
  {
    if cells != [] {
      var n := |cells| - 1;
      var rest := cells[..n];
      CountWhereCountsPositions(rest, p);
      assert forall i :: 0 <= i < n ==> rest[i] == cells[i];
      if p(cells[n]) {
        assert IndicesWhere(cells, p) == IndicesWhere(rest, p) + {n};
        assert n !in IndicesWhere(rest, p);
      } else {
        assert IndicesWhere(cells, p) == IndicesWhere(rest, p);
      }
    }
  }

  /** `format.format(count=n)` for a format whose only field is `{count}`. */
  function FormatCount(format: string, n: nat): string {
    ReplaceAll(format, "{count}", NatToString(n))
  }

  /** A format ending in `{count}`, with no brace before it, ends in the decimal count. */
  lemma FormatCountSuffix(prefix: string, n: nat)
    requires forall i :: 0 <= i < |prefix| ==> prefix[i] != '{'
    ensures FormatCount(prefix + "{count}", n) == prefix + NatToString(n)
  {
    ReplaceSkipsPrefix(prefix, "{count}", "{count}", NatToString(n));
    assert StartsWith("{count}", "{count}");
    assert "{count}"[|"{count}"|..] == "";
  }

  /** One rendered line: the cells joined and bracketed by `sep`. */
  function Line(sep: string, cells: seq<string>): string {
    sep + Join(sep, cells) + sep
  }

  function Dashes(n: nat): (r: seq<string>)
    ensures |r| == n && forall i :: 0 <= i < n ==> r[i] == "---"
  {
    seq(n, i => "---")
  }

  /** Every key has a column of at least `n` cells. */
  predicate HasRows(keys: seq<string>, data: map<string, seq<Cell>>, n: nat) {
    forall j :: 0 <= j < |keys| ==> keys[j] in data && n <= |data[keys[j]]|
  }

  /** Row `i`, one cell per key in key order. */
  function RowCells(keys: seq<string>, data: map<string, seq<Cell>>, i: nat): (r: seq<string>)
    requires HasRows(keys, data, i + 1)
    ensures |r| == |keys| && forall j :: 0 <= j < |keys| ==> r[j] == ToStr(data[keys[j]][i])
  {
    seq(|keys|, j requires 0 <= j < |keys| && HasRows(keys, data, i + 1) => ToStr(data[keys[j]][i]))
  }

  function SummaryCells(keys: seq<string>, summary: map<string, Cell>): (r: seq<string>)
    requires forall j :: 0 <= j < |keys| ==> keys[j] in summary
    ensures |r| == |keys| && forall j :: 0 <= j < |keys| ==> r[j] == ToStr(summary[keys[j]])
  {
    seq(|keys|, j requires 0 <= j < |keys| && keys[j] in summary => ToStr(summary[keys[j]]))
  }

  predicate SummaryCovers(keys: seq<string>, summary: Option<map<string, Cell>>) {
    summary.Some? ==> forall j :: 0 <= j < |keys| ==> keys[j] in summary.value
  }

  function RowLines(keys: seq<string>, data: map<string, seq<Cell>>, n: nat, sep: string): (r: seq<string>)
    requires HasRows(keys, data, n)
    ensures |r| == n && forall i :: 0 <= i < n ==> r[i] == Line(sep, RowCells(keys, data, i))
  {
    seq(n, i requires 0 <= i < n && HasRows(keys, data, n) => Line(sep, RowCells(keys, data, i)))
  }

  /** The lines above the data rows: header, separator and the summary if any. */
  function HeadLines(labels: seq<string>, keys: seq<string>, summary: Option<map<string, Cell>>,
                     sep: string): seq<string>
    requires SummaryCovers(keys, summary)
  {
    [Line(sep, labels), Line(sep, Dashes(|labels|))]
    + (if summary.Some? then [Line(sep, SummaryCells(keys, summary.value))] else [])
  }

  /** The lines of the table: header, separator, summary if any, then the `n` data rows. */
  function Lines(labels: seq<string>, keys: seq<string>, data: map<string, seq<Cell>>,
                 summary: Option<map<string, Cell>>, n: nat, sep: string): seq<string>
    requires HasRows(keys, data, n) && SummaryCovers(keys, summary)
  {
    HeadLines(labels, keys, summary, sep) + RowLines(keys, data, n, sep)
  }

  /** Each line followed by `end`, all concatenated. */
  function Unlines(lines: seq<string>, end: string): string
    decreases |lines|
  {
    if lines == [] then "" else Unlines(lines[..|lines| - 1], end) + lines[|lines| - 1] + end
  }

  function Render(labels: seq<string>, keys: seq<string>, data: map<string, seq<Cell>>,
                  summary: Option<map<string, Cell>>, n: nat, sep: string, end: string): string
    requires HasRows(keys, data, n) && SummaryCovers(keys, summary)
  {
    Unlines(Lines(labels, keys, data, summary, n, sep), end)
  }

  /**
   * The layout of the output: 2 + (1 if there is a summary) + `n` lines; the
   * header lists the labels, the separator has one `---` per label, the
   * summary line follows when present, then row `i` is line `offset + i`
   * with the cells in key order.
   */
  lemma LinesLayout(labels: seq<string>, keys: seq<string>, data: map<string, seq<Cell>>,
                    summary: Option<map<string, Cell>>, n: nat, sep: string)
    requires HasRows(keys, data, n) && SummaryCovers(keys, summary)
    ensures var lines := Lines(labels, keys, data, summary, n, sep);
      var offset := if summary.Some? then 3 else 2;
      && |lines| == offset + n
      && lines[0] == sep + Join(sep, labels) + sep
      && lines[1] == sep + Join(sep, Dashes(|labels|)) + sep
      && (summary.Some? ==> lines[2] == sep + Join(sep, SummaryCells(keys, summary.value)) + sep)
      && forall k :: offset <= k < offset + n ==>
           lines[k] == sep + Join(sep, RowCells(keys, data, k - offset)) + sep
  {
    var head := HeadLines(labels, keys, summary, sep);
    var rows := RowLines(keys, data, n, sep);
    var lines := Lines(labels, keys, data, summary, n, sep);
    assert lines == head + rows;
    var offset := if summary.Some? then 3 else 2;
    assert |head| == offset;
    forall k | offset <= k < offset + n
      ensures lines[k] == sep + Join(sep, RowCells(keys, data, k - offset)) + sep
    {
      assert lines[k] == rows[k - offset];
    }
  }

  /** A string without the separator character is not split. */
  lemma {:induction false} SplitWithoutSeparator(s: string, c: char)
    requires c !in s
    ensures Split(s, [c]) == [s]
    decreases |s|
  {
    if s != [] {
      assert !StartsWith(s, [c]) by {
        assert s[..1][0] == s[0];
      }
      SplitWithoutSeparator(s[1..], c);
      assert s == [s[0]] + s[1..];
    }
  }

  /** Splitting `p + c + rest` where `p` has no `c` gives `p` and then the parts of `rest`. */
  lemma {:induction false} SplitAtFirstSeparator(p: string, c: char, rest: string)
    requires c !in p
    ensures Split(p + [c] + rest, [c]) == [p] + Split(rest, [c])
    decreases |p|
  {
    var s := p + [c] + rest;
    if p == [] {
      assert s == [c] + rest;
      assert StartsWith(s, [c]);
      assert s[1..] == rest;
    } else {
      assert s[..1][0] == p[0];
      assert !StartsWith(s, [c]);
      assert s[1..] == p[1..] + [c] + rest;
      SplitAtFirstSeparator(p[1..], c, rest);
      assert [p[0]] + p[1..] == p;
    }
  }

  /**
   * With a one-character separator that no cell contains, splitting a
   * joined row gives back its cells: the rendering loses nothing.
   */
  lemma {:induction false} SplitJoinedCells(cells: seq<string>, c: char)
    requires |cells| >= 1
    requires forall i :: 0 <= i < |cells| ==> c !in cells[i]
    ensures Split(Join([c], cells), [c]) == cells
    decreases |cells|
  {
    if |cells| == 1 {
      SplitWithoutSeparator(cells[0], c);
    } else {
      SplitJoinedCells(cells[1..], c);
      SplitAtFirstSeparator(cells[0], c, Join([c], cells[1..]));
      assert [cells[0]] + cells[1..] == cells;
    }
  }

  /** A rendered line with separator `c` splits into an empty field, its cells, and an empty field. */
  lemma SplitLine(cells: seq<string>, c: char)
    requires |cells| >= 1
    requires forall i :: 0 <= i < |cells| ==> c !in cells[i]
    ensures Split(Line([c], cells), [c]) == [""] + cells + [""]
  {
    var fields := [""] + cells + [""];
    assert forall i :: 0 <= i < |fields| ==> c !in fields[i];
    assert fields[1..] == cells + [""];
    assert (cells + [""])[1..] == cells[1..] + [""];
    JoinAppendEmpty([c], cells);
    assert Join([c], fields) == [c] + Join([c], cells + [""]);
    assert Line([c], cells) == Join([c], fields);
    SplitJoinedCells(fields, c);
  }

  lemma {:induction false} JoinAppendEmpty(sep: string, cells: seq<string>)
    requires |cells| >= 1
    ensures Join(sep, cells + [""]) == Join(sep, cells) + sep
    decreases |cells|
  {
    if |cells| == 1 {
      assert (cells + [""])[1..] == [""];
    } else {
      assert (cells + [""])[1..] == cells[1..] + [""];
      JoinAppendEmpty(sep, cells[1..]);
    }
  }

  function BlankSummary(keys: seq<string>): map<string, Cell> {
    map k | k in keys :: Text("")
  }

  class MarkdownTable {
    var labels: seq<string>
    var keys: seq<string>
    var data: map<string, seq<Cell>>
    var summary: Option<map<string, Cell>>

    /** Every declared key has a column, all columns have the same length, and a summary covers every key. */
    ghost predicate Valid()
      reads this
    {
      && |keys| >= 1 && |labels| == |keys|
      && data.Keys == KeySet(keys)
      && (forall k :: k in data ==> |data[k]| == |data[keys[0]]|)
      && SummaryCovers(keys, summary)
    }

    /**
     * `MarkdownTable(labels, keys, splitter)`: labels and keys are split on
     * the splitter and stripped; their numbers must agree. Every column is
     * empty and there is no summary.
     */
    constructor(labelText: string, keyText: string, splitter: string := "|")
      requires |splitter| > 0
      requires |Split(labelText, splitter)| == |Split(keyText, splitter)|
      ensures Valid()
      ensures labels == ParseNames(labelText, splitter) && keys == ParseNames(keyText, splitter)
      ensures data == (map k | k in keys :: []) && summary == None
    {
      labels := ParseNames(labelText, splitter);
      var ks := ParseNames(keyText, splitter);
      keys := ks;
      data := map k | k in ks :: [];
      summary := None;
    }

    /** `n_rows()`: the length of the first column, which every column shares. */
    function NRows(): (n: nat)
      reads this
      requires Valid()
      ensures forall k :: k in data ==> |data[k]| == n
      ensures HasRows(keys, data, n)
    {
      |data[keys[0]]|
    }

    /** `n_cols()`: the number of columns, one per distinct key. */
    function NCols(): (n: nat)
      reads this
      requires Valid()
      ensures n == |KeySet(keys)|
      ensures Distinct(keys) ==> n == |keys|
    {
      if Distinct(keys) then DistinctKeySetSize(keys); |data| else |data|
    }

    /** `get_column(key)`: the named column, or nothing for an undeclared key. */
    function GetColumn(key: string): (r: Option<seq<Cell>>)
      reads this
      ensures r.Some? <==> key in data
      ensures r.Some? ==> r.value == data[key]
    {
      if key in data then Some(data[key]) else None
    }

    /**
     * `append_row(vars)`: every column grows by the cell `vars[key]`, so
     * there is one more row; nothing else changes.
     */
    method AppendRow(vars: map<string, Cell>)
      requires Valid() && Distinct(keys)
      requires forall k :: k in keys ==> k in vars
      modifies this
      ensures Valid()
      ensures labels == old(labels) && keys == old(keys) && summary == old(summary)
      ensures data == map k | k in old(data) :: old(data)[k] + [vars[k]]
      ensures NRows() == old(NRows()) + 1
    {
      data := AppendCells(data, keys, vars);
    }

    /**
     * `add_summary(key, value)`: the first call creates a summary with an
     * empty cell under every key; each call then sets the one named cell.
     */
    method AddSummary(key: string, value: Cell)
      requires Valid()
      modifies this
      ensures Valid()
      ensures labels == old(labels) && keys == old(keys) && data == old(data)
      ensures old(summary).None? ==> summary == Some(BlankSummary(keys)[key := value])
      ensures old(summary).Some? ==> summary == Some(old(summary).value[key := value])
    {
      if summary.None? {
        summary := Some(BlankSummary(keys));
      }
      summary := Some(summary.value[key := value]);
    }

    /**
     * `add_count(key, p, format)`: sets the summary cell of `key` to the
     * format with `{count}` replaced by the number of cells of that column
     * satisfying `p`. An undeclared key is an error and changes nothing.
     */
    method AddCount(key: string, p: Cell -> bool, format: string := "n={count}") returns (ok: bool)
      requires Valid()
      modifies this
      ensures Valid()
      ensures labels == old(labels) && keys == old(keys) && data == old(data)
      ensures ok == (key in data)
      ensures ok && old(summary).None? ==>
        summary == Some(BlankSummary(keys)[key := Text(FormatCount(format, CountWhere(data[key], p)))])
      ensures ok && old(summary).Some? ==>
        summary == Some(old(summary).value[key := Text(FormatCount(format, CountWhere(data[key], p)))])
      ensures !ok ==> summary == old(summary)
    {
      if key !in data {
        return false;
      }
      var count := CountWhere(data[key], p);
      AddSummary(key, Text(FormatCount(format, count)));
      ok := true;
    }

    /**
     * `transform_column(key, f)`: cell `i` of the column becomes `f` of its
     * old value; the column keeps its length and every other column and the
     * summary are unchanged. An undeclared key is an error and changes nothing.
     */
    method TransformColumn(key: string, f: Cell -> Cell) returns (ok: bool)
      requires Valid()
      modifies this
      ensures Valid()
      ensures labels == old(labels) && keys == old(keys) && summary == old(summary)
      ensures ok == (key in old(data))
      ensures ok ==> data == old(data)[key := MapCells(old(data)[key], f)]
      ensures !ok ==> data == old(data)
    {
      if key !in data {
        return false;
      }
      var cells := TransformCells(data[key], f);
      data := data[key := cells];
      ok := true;
    }

    /**
     * `write(fout, sep, end)`: the text written, line by line: header,
     * separator, the summary if there is one, then every row in order.
     */
    method Write(sep: string := "|", end: string := "\n") returns (out: string)
      requires Valid()
      ensures out == Render(labels, keys, data, summary, NRows(), sep, end)
    {
      var n := NRows();
      var head := WriteHead(labels, keys, summary, sep, end);
      var body := WriteRows(keys, data, n, sep, end);
      out := head + body;
      UnlinesAppend(HeadLines(labels, keys, summary, sep), RowLines(keys, data, n, sep), end);
    }
  }

  /** Header, separator and summary lines of `write`. */
  method WriteHead(labels: seq<string>, keys: seq<string>, summary: Option<map<string, Cell>>,
                   sep: string, end: string) returns (out: string)
    requires SummaryCovers(keys, summary)
    ensures out == Unlines(HeadLines(labels, keys, summary, sep), end)
  {
    var header := Line(sep, labels);
    var rule := Line(sep, Dashes(|labels|));
    if summary.Some? {
      var total := Line(sep, SummaryCells(keys, summary.value));
      assert HeadLines(labels, keys, summary, sep) == [header, rule, total];
      UnlinesThree(header, rule, total, end);
      out := header + end + rule + end + total + end;
    } else {
      assert HeadLines(labels, keys, summary, sep) == [header, rule];
      UnlinesTwo(header, rule, end);
      out := header + end + rule + end;
    }
  }

  /** The data rows of `write`, one line per row, in order. */
  method WriteRows(keys: seq<string>, data: map<string, seq<Cell>>, n: nat, sep: string, end: string)
    returns (out: string)
    requires HasRows(keys, data, n)
    ensures out == Unlines(RowLines(keys, data, n, sep), end)
  {
    ghost var rows := RowLines(keys, data, n, sep);
    out := "";
    var i := 0;
    while i < n
      invariant 0 <= i <= n
      invariant out == Unlines(rows[..i], end)
    {
      UnlinesSnoc(rows, i, end);
      out := out + Line(sep, RowCells(keys, data, i)) + end;
      i := i + 1;
    }
    assert rows[..n] == rows;
  }

  /** The loop of `append_row`: key by key, the column of each key grows by the key's cell. */
  method AppendCells(data: map<string, seq<Cell>>, keys: seq<string>, vars: map<string, Cell>)
    returns (grown: map<string, seq<Cell>>)
    requires Distinct(keys) && data.Keys == KeySet(keys)
    requires forall k :: k in keys ==> k in vars
    ensures grown == map k | k in data :: data[k] + [vars[k]]
  {
    grown := data;
    var i := 0;
    while i < |keys|
      invariant 0 <= i <= |keys|
      invariant grown.Keys == data.Keys
      invariant forall k :: k in grown ==>
        grown[k] == if k in keys[..i] then data[k] + [vars[k]] else data[k]
    {
      var key := keys[i];
      assert keys[..i + 1] == keys[..i] + [key];
      assert key !in keys[..i];
      grown := grown[key := grown[key] + [vars[key]]];
      i := i + 1;
    }
    assert keys[..i] == keys;
  }

  /** The loop of `transform_column`: cell `i` is replaced by `f` of itself, for each `i` in turn. */
  method TransformCells(cells: seq<Cell>, f: Cell -> Cell) returns (out: seq<Cell>)
    ensures out == MapCells(cells, f)
  {
    out := cells;
    var i := 0;
    while i < |cells|
      invariant 0 <= i <= |cells| && |out| == |cells|
      invariant forall j :: 0 <= j < i ==> out[j] == f(cells[j])
      invariant forall j :: i <= j < |cells| ==> out[j] == cells[j]
    {
      out := out[i := f(out[i])];
      i := i + 1;
    }
  }

  lemma {:induction false} UnlinesAppend(a: seq<string>, b: seq<string>, end: string)
    ensures Unlines(a + b, end) == Unlines(a, end) + Unlines(b, end)
    decreases |b|
  {
    if b == [] {
      assert a + b == a;
    } else {
      var k := |b| - 1;
      assert (a + b)[..|a + b| - 1] == a + b[..k];
      UnlinesAppend(a, b[..k], end);
    }
  }

  lemma UnlinesTwo(a: string, b: string, end: string)
    ensures Unlines([a, b], end) == a + end + b + end
  {
    assert [a, b][..1] == [a];
    assert [a][..0] == [];
    assert Unlines([a], end) == "" + a + end;
    assert "" + a == a;
  }

  lemma UnlinesThree(a: string, b: string, c: string, end: string)
    ensures Unlines([a, b, c], end) == a + end + b + end + c + end
  {
    assert [a, b, c][..2] == [a, b];
    UnlinesTwo(a, b, end);
  }

  lemma UnlinesSnoc(lines: seq<string>, i: nat, end: string)
    requires i < |lines|
    ensures Unlines(lines[..i + 1], end) == Unlines(lines[..i], end) + lines[i] + end
  {
    assert lines[..i + 1][..i] == lines[..i];
  }
}
