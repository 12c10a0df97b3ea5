/**
 * Turning one comma-separated row into a record, as both revisions do: the header names,
 * trimmed, become the fields, and each field holds the trimmed cell at the same position.
 * There is no quoting: a comma always separates cells.
 */
module Csv {
  import opened Wrappers
  import Text

  /** A parsed CSV row: field name to text. */
  type Record = map<string, string>

  /** `p[field]`: the field's text, or None (`undefined`) when the row has no such field. */
  function Field(p: Record, field: string): Option<string> {
    if field in p then Some(p[field]) else None
  }

  /** `clean(v)`: the text of a possibly missing value, trimmed; a missing value is "". */
  function Clean(v: Option<string>): (r: string)
    ensures v.None? ==> r == []
    ensures v.Some? ==> r == Text.Trim(v.value)
    ensures r != [] ==> !Text.IsSpace(r[0]) && !Text.IsSpace(r[|r| - 1])
  {
    Text.Trim(v.GetOr(""))
  }

  /** The cell at column `i` of a split row, cleaned: "" when the row is too short. */
  function Cell(cols: seq<string>, i: nat): string {
    Clean(if i < |cols| then Some(cols[i]) else None)
  }

  /** The header names of a header line: its comma-separated cells, trimmed. */
  function Headers(line: string): (hs: seq<string>)
    ensures |hs| == |Text.Split(line, ',')|
    ensures forall i :: 0 <= i < |hs| ==> hs[i] == Text.Trim(Text.Split(line, ',')[i])
  {
    var cols := Text.Split(line, ',');
    seq(|cols|, i requires 0 <= i < |cols| => Text.Trim(cols[i]))
  }

  /**
   * The map that sets `names[i]` to `values[i]` for i = 0, 1, ... in turn, so that a name
   * that occurs twice keeps the value of its last occurrence.
   */
  function Assign<V>(names: seq<string>, values: seq<V>): map<string, V>
    requires |names| <= |values|
    decreases |names|
  {
    if names == [] then map[]
    else Assign(names[..|names| - 1], values)[names[|names| - 1] := values[|names| - 1]]
  }

  /** The keys of `Assign` are exactly the names. */
  lemma {:induction false} AssignKeys<V>(names: seq<string>, values: seq<V>)
    requires |names| <= |values|
    ensures Assign(names, values).Keys == set h | h in names
    decreases |names|
  {
    if names != [] {
      var n := |names| - 1;
      AssignKeys(names[..n], values);
      assert names == names[..n] + [names[n]];
    }
  }

  /** A name that does not occur again later holds its own value. */
  lemma {:induction false} AssignLast<V>(names: seq<string>, values: seq<V>, i: nat)
    requires |names| <= |values|
    requires i < |names| && names[i] !in names[i + 1..]
    ensures names[i] in Assign(names, values)
    ensures Assign(names, values)[names[i]] == values[i]
    decreases |names|
  {
    var n := |names| - 1;
    if i < n {
      var prefix := names[..n];
      assert names[n] == names[i + 1..][n - i - 1];
      assert prefix[i + 1..] == names[i + 1..][..n - i - 1];
      AssignLast(prefix, values, i);
    }
  }

  /** The cells of a row under `n` headers: one per header, "" past the end of the row. */
  function Cells(cols: seq<string>, n: nat): (cs: seq<string>)
    ensures |cs| == n
  {
    seq(n, i requires 0 <= i < n => Cell(cols, i))
  }

  /** The record a row yields: each header, in order, is set to its cell. */
  function RowRecord(headers: seq<string>, cols: seq<string>): Record {
    Assign(headers, Cells(cols, |headers|))
  }

  /** The fields of a row's record are exactly the header names. */
  lemma RowRecordKeys(headers: seq<string>, cols: seq<string>)
    ensures RowRecord(headers, cols).Keys == set h | h in headers
  {
    AssignKeys(headers, Cells(cols, |headers|));
  }

  /**
   * Each field of a row's record holds the cell under the last header of that name: the
   * trimmed text, or "" when the row is too short.
   */
  lemma RowRecordValues(headers: seq<string>, cols: seq<string>)
    ensures forall i :: 0 <= i < |headers| && headers[i] !in headers[i + 1..] ==>
              && headers[i] in RowRecord(headers, cols)
              && RowRecord(headers, cols)[headers[i]] == (if i < |cols| then Text.Trim(cols[i]) else "")
  {
    var cells := Cells(cols, |headers|);
    forall i | 0 <= i < |headers| && headers[i] !in headers[i + 1..]
      ensures headers[i] in RowRecord(headers, cols)
      ensures RowRecord(headers, cols)[headers[i]] == (if i < |cols| then Text.Trim(cols[i]) else "")
    {
      AssignLast(headers, cells, i);
    }
  }

  /** Fills a record from a row one header at a time, as the source's accumulator does. */
  method FillRecord(headers: seq<string>, cols: seq<string>) returns (rec: Record)
    ensures rec == RowRecord(headers, cols)
  {
    ghost var cells := Cells(cols, |headers|);
    rec := map[];
    var i := 0;
    while i < |headers|
      invariant 0 <= i <= |headers|
      invariant rec == Assign(headers[..i], cells)
    {
      assert headers[..i + 1][..i] == headers[..i];
      rec := rec[headers[i] := Cell(cols, i)];
      i := i + 1;
    }
    assert headers[..|headers|] == headers;
  }
}
