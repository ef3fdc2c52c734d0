/** The rows `printQueryResultAsTable` hands to `console.table`: the
    selection expanded, at most `maxRows` results, each formatted cell by
    cell and cut down to `maxColumns` cells
    (packages/parser/src/lib/formatter.ts). */
module Formatter {
  import opened Records
  import opened Values
  import opened QueryAst

  /** The default `maxColumns` and `maxRows`. */
  const DefaultMaxColumns: int := 6
  const DefaultMaxRows: int := 100

  /** The width a string or joined array is capped at. */
  const CellWidth: nat := 50

  /** `capString(str, maxLength)`: a string longer than the limit keeps its
      first `maxLength` characters and gains `...`; a shorter one is left
      alone. */
  function CapString(str: string, maxLength: nat): (r: string)
    ensures |str| <= maxLength ==> r == str
    ensures |str| > maxLength ==> |r| == maxLength + 3
    ensures |str| > maxLength ==> r[..maxLength] == str[..maxLength] && r[maxLength..] == "..."
    ensures |r| <= maxLength + 3
  {
    if |str| > maxLength then str[..maxLength] + "..." else str
  }

  /** One cell: long strings are capped, arrays joined with `, ` and capped,
      everything else goes through `String`. */
  function FormatCell(v: Value): string {
    if v.Str? && |v.s| > CellWidth then CapString(v.s, CellWidth)
    else if v.Arr? then CapString(JoinItems(v.items, ", "), CellWidth)
    else Show(v)
  }

  /** The selection the table shows: `*` stands for the keys of the first
      result, or for no key at all when there is none. */
  function ExpandSelection(results: seq<Record<Value>>, selection: seq<string>): seq<string> {
    if |selection| == 1 && selection[0] == "*" then
      if results == [] then [] else results[0].keys
    else selection
  }

  /** The `formatted` object after the `forEach` has visited `keys`. */
  function Formatted(result: Record<Value>, keys: seq<string>): Record<string>
    decreases |keys|
  {
    if keys == [] then Empty()
    else
      var key := keys[|keys| - 1];
      var earlier := Formatted(result, keys[..|keys| - 1]);
      if key in result.vals then Put(earlier, key, FormatCell(result.vals[key])) else earlier
  }

  lemma FormattedSnoc(result: Record<Value>, keys: seq<string>, i: nat)
    requires i < |keys|
    ensures Formatted(result, keys[..i + 1])
         == if keys[i] in result.vals then Put(Formatted(result, keys[..i]), keys[i], FormatCell(result.vals[keys[i]]))
            else Formatted(result, keys[..i])
  {
    assert keys[..i + 1][..i] == keys[..i];
  }

  /** The `forEach` over the selection: every selected key the result has
      gets its formatted cell, and the others are skipped. */
  method FormatRow(result: Record<Value>, keys: seq<string>) returns (formatted: Record<string>)
    ensures formatted == Formatted(result, keys)
  {
    formatted := Empty();
    for i := 0 to |keys|
      invariant formatted == Formatted(result, keys[..i])
    {
      var key := keys[i];
      FormattedSnoc(result, keys, i);
      if key in result.vals {
        var value := result.vals[key];
        formatted := Put(formatted, key, FormatCell(value));
      }
    }
    assert keys[..|keys|] == keys;
  }

  /** `Math.max(0, n)`: how many items an `index < n` filter keeps of a long
      enough list. */
  function Clamp(n: int): nat {
    if n < 0 then 0 else n
  }

  /** A formatted row after the column check: with more than `maxColumns`
      cells it keeps its first `maxColumns` cells and gains `'...'`. */
  function Truncated(formatted: Record<string>, maxColumns: int): Record<string> {
    if |formatted.keys| > maxColumns then
      Put(FromEntries(Entries(formatted)[..Clamp(maxColumns)]), "...", "...")
    else formatted
  }

  /** The `filter` and `reduce` that rebuild a row from its first
      `maxColumns` entries, then the `'...'` column. */
  method TruncateRow(formatted: Record<string>, maxColumns: int) returns (normalized: Record<string>)
    ensures normalized == Truncated(formatted, maxColumns)
  {
    normalized := formatted;
    if |formatted.keys| > maxColumns {
      var es := Entries(formatted);
      var acc: Record<string> := Empty();
      // the `filter` keeps the entries at an index below `maxColumns`
      for i := 0 to Clamp(maxColumns)
        invariant acc == PutAll(Empty(), es[..i])
      {
        var (key, value) := es[i];
        PutAllSnoc(Empty(), es, i);
        acc := Put(acc, key, value);
      }
      assert acc == FromEntries(Entries(formatted)[..Clamp(maxColumns)]);
      normalized := Put(acc, "...", "...");
    }
  }

  /** One row of the table: the result formatted under the expanded
      selection, then cut down to `maxColumns` cells. */
  function Row(result: Record<Value>, keys: seq<string>, maxColumns: int): Record<string> {
    Truncated(Formatted(result, keys), maxColumns)
  }

  /** The body of the `forEach` over the results: format one result, then
      apply the column check. */
  method FormatResult(result: Record<Value>, keys: seq<string>, maxColumns: int) returns (normalized: Record<string>)
    ensures normalized == Row(result, keys, maxColumns)
  {
    var formatted := FormatRow(result, keys);
    normalized := TruncateRow(formatted, maxColumns);
  }

  /** How many of `n` results an `index < maxRows` filter keeps. */
  function ShownCount(n: nat, maxRows: int): nat {
    if n <= Clamp(maxRows) then n else Clamp(maxRows)
  }

  /** The rows of the first `n` results. */
  function RowsUpTo(results: seq<Record<Value>>, keys: seq<string>, maxColumns: int, n: nat): seq<Record<string>>
    requires n <= |results|
  {
    if n == 0 then []
    else RowsUpTo(results, keys, maxColumns, n - 1) + [Row(results[n - 1], keys, maxColumns)]
  }

  /** The rows passed to `console.table`. */
  function TableRows(queryResult: QueryResult, maxColumns: int, maxRows: int): seq<Record<string>> {
    var keys := ExpandSelection(queryResult.results, queryResult.selection);
    RowsUpTo(queryResult.results, keys, maxColumns, ShownCount(|queryResult.results|, maxRows))
  }

  /** `printQueryResultAsTable` up to `console.table`: the results at an
      index below `maxRows`, each formatted and truncated. */
  method FormatTable(queryResult: QueryResult, maxColumns: int, maxRows: int) returns (rows: seq<Record<string>>)
    ensures rows == TableRows(queryResult, maxColumns, maxRows)
  {
    var results := queryResult.results;
    var keys := ExpandSelection(results, queryResult.selection);
    rows := [];
    // the `filter` keeps the first `shown` results; the `forEach` visits them
    var shown := ShownCount(|results|, maxRows);
    for index := 0 to shown
      invariant rows == RowsUpTo(results, keys, maxColumns, index)
    {
      var normalized := FormatResult(results[index], keys, maxColumns);
      rows := rows + [normalized];
    }
  }

  /** A string of at most 50 characters is shown as it is, any other string
      or any array in at most 53 characters, and every other value through
      `String`. */
  lemma FormatCellExactly(v: Value)
    ensures v.Str? && |v.s| <= CellWidth ==> FormatCell(v) == v.s
    ensures v.Str? || v.Arr? ==> |FormatCell(v)| <= CellWidth + 3
    ensures v.Str? && |v.s| > CellWidth ==> FormatCell(v) == v.s[..CellWidth] + "..."
    ensures !v.Str? && !v.Arr? ==> FormatCell(v) == Show(v)
  {
  }

  /** A row's cells are exactly the selected keys it has, each holding its
      formatted value: selected keys it lacks are skipped. */
  lemma {:induction false} FormattedExactly(result: Record<Value>, keys: seq<string>)
    ensures forall k :: k in Formatted(result, keys).vals <==> k in keys && k in result.vals
    ensures forall k :: k in Formatted(result, keys).vals ==> Formatted(result, keys).vals[k] == FormatCell(result.vals[k])
    decreases |keys|
  {
    if keys != [] {
      var n := |keys|;
      FormattedExactly(result, keys[..n - 1]);
      LastSplit(keys);
    }
  }

  /** Formatting a row under distinct keys it all has keeps those keys in
      selection order; in particular `*` keeps the first result's order. */
  lemma {:induction false} FormattedKeys(result: Record<Value>, keys: seq<string>)
    requires forall i, j :: 0 <= i < j < |keys| ==> keys[i] != keys[j]
    requires forall i :: 0 <= i < |keys| ==> keys[i] in result.vals
    ensures Formatted(result, keys).keys == keys
    decreases |keys|
  {
    if keys != [] {
      var n := |keys|;
      var init := keys[..n - 1];
      assert forall i :: 0 <= i < n - 1 ==> init[i] == keys[i];
      FormattedKeys(result, init);
      FormattedExactly(result, init);
      assert keys[n - 1] !in init;
      LastSplit(keys);
    }
  }

  /** The first `n` entries of a record, rebuilt: its first `n` keys with
      their values. */
  lemma PrefixRebuilt<V>(d: Record<V>, n: nat)
    requires n <= |d.keys|
    ensures FromEntries(Entries(d)[..n]).keys == d.keys[..n]
    ensures forall k :: k in FromEntries(Entries(d)[..n]).vals <==> k in d.keys[..n]
    ensures forall k :: k in FromEntries(Entries(d)[..n]).vals ==> FromEntries(Entries(d)[..n]).vals[k] == d.vals[k]
  {
    var none: Record<V> := Empty();
    PutAllEntriesPrefixKeys(none, d, n);
    PutAllEntriesPrefixVals(none, d, n);
    KeysNotInNone(d.keys[..n]);
    assert none.vals.Keys == {};
    EmptyUnion(PrefixMap(d, n));
  }

  /** The column check: a row within `maxColumns` cells is unchanged; a
      wider one keeps its first `maxColumns` cells in order, with their
      values, followed by `'...' → '...'`, and so has at most
      `maxColumns + 1` cells. */
  lemma TruncatedExactly(formatted: Record<string>, maxColumns: int)
    ensures |formatted.keys| <= maxColumns ==> Truncated(formatted, maxColumns) == formatted
    ensures |formatted.keys| > maxColumns ==>
      var kept := formatted.keys[..Clamp(maxColumns)];
      && Truncated(formatted, maxColumns).keys == kept + (if "..." in kept then [] else ["..."])
      && Truncated(formatted, maxColumns).vals["..."] == "..."
      && (forall i :: 0 <= i < |kept| && kept[i] != "..." ==>
            kept[i] in Truncated(formatted, maxColumns).vals
            && Truncated(formatted, maxColumns).vals[kept[i]] == formatted.vals[kept[i]])
    ensures |Truncated(formatted, maxColumns).keys| <= if |formatted.keys| <= maxColumns then |formatted.keys| else Clamp(maxColumns) + 1
  {
    if |formatted.keys| > maxColumns {
      PrefixRebuilt(formatted, Clamp(maxColumns));
    }
  }

  /** The rows of the first `n` results, in order. */
  lemma {:induction false} RowsUpToExactly(results: seq<Record<Value>>, keys: seq<string>, maxColumns: int, n: nat)
    requires n <= |results|
    ensures |RowsUpTo(results, keys, maxColumns, n)| == n
    ensures forall i :: 0 <= i < n ==> RowsUpTo(results, keys, maxColumns, n)[i] == Row(results[i], keys, maxColumns)
  {
    if n > 0 {
      RowsUpToExactly(results, keys, maxColumns, n - 1);
    }
  }

  /** A row has at most `maxColumns + 1` cells, and every cell but `'...'`
      is a selected key the result has. */
  lemma RowBounds(result: Record<Value>, keys: seq<string>, maxColumns: int)
    ensures |Row(result, keys, maxColumns).keys| <= Clamp(maxColumns) + 1
    ensures forall k :: k in Row(result, keys, maxColumns).vals && k != "..." ==> k in result.vals && k in keys
  {
    var formatted := Formatted(result, keys);
    TruncatedExactly(formatted, maxColumns);
    FormattedExactly(result, keys);
    if |formatted.keys| > maxColumns {
      PrefixRebuilt(formatted, Clamp(maxColumns));
    }
  }

  /** The table shows the first `maxRows` results, in order, each row
      built from the result at the same position; no row is wider than
      `maxColumns + 1` cells, and every cell but `'...'` is a selected key
      the result has. */
  lemma TableRowsExactly(queryResult: QueryResult, maxColumns: int, maxRows: int)
    ensures |TableRows(queryResult, maxColumns, maxRows)| == ShownCount(|queryResult.results|, maxRows)
    ensures forall i :: 0 <= i < |TableRows(queryResult, maxColumns, maxRows)| ==>
      TableRows(queryResult, maxColumns, maxRows)[i]
        == Row(queryResult.results[i], ExpandSelection(queryResult.results, queryResult.selection), maxColumns)
    ensures forall i :: 0 <= i < |TableRows(queryResult, maxColumns, maxRows)| ==>
      |TableRows(queryResult, maxColumns, maxRows)[i].keys| <= Clamp(maxColumns) + 1
    ensures forall i, k :: 0 <= i < |TableRows(queryResult, maxColumns, maxRows)| && k in TableRows(queryResult, maxColumns, maxRows)[i].vals && k != "..." ==>
      k in queryResult.results[i].vals && k in ExpandSelection(queryResult.results, queryResult.selection)
  {
    var keys := ExpandSelection(queryResult.results, queryResult.selection);
    var n := ShownCount(|queryResult.results|, maxRows);
    RowsUpToExactly(queryResult.results, keys, maxColumns, n);
    var rows := TableRows(queryResult, maxColumns, maxRows);
    forall i | 0 <= i < |rows|
      ensures |rows[i].keys| <= Clamp(maxColumns) + 1
      ensures forall k :: k in rows[i].vals && k != "..." ==> k in queryResult.results[i].vals && k in keys
    {
      RowBounds(queryResult.results[i], keys, maxColumns);
    }
  }

  /** With the defaults, at most 100 rows of at most 7 cells are shown. */
  lemma DefaultTableBounds(queryResult: QueryResult)
    ensures |TableRows(queryResult, DefaultMaxColumns, DefaultMaxRows)| <= 100
    ensures forall i :: 0 <= i < |TableRows(queryResult, DefaultMaxColumns, DefaultMaxRows)| ==>
      |TableRows(queryResult, DefaultMaxColumns, DefaultMaxRows)[i].keys| <= 7
  {
    TableRowsExactly(queryResult, DefaultMaxColumns, DefaultMaxRows);
  }

  /** A `*` selection over a non-empty result list shows the first result's
      keys, in its order, for the first row. */
  lemma WildcardShowsFirstKeys(queryResult: QueryResult)
    requires queryResult.selection == ["*"] && queryResult.results != []
    ensures ExpandSelection(queryResult.results, queryResult.selection) == queryResult.results[0].keys
    ensures Formatted(queryResult.results[0], queryResult.results[0].keys).keys == queryResult.results[0].keys
  {
    FormattedKeys(queryResult.results[0], queryResult.results[0].keys);
  }
}
