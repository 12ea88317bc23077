/** Column projection: turning the caller's selected column names into header
    positions, and picking those positions out of every row. */
module Projection {

  /** One parsed CSV record: its fields, in order. */
  type Row = seq<string>

  /** Every index of the plan names a column of the header. */
  predicate InBounds(header: Row, plan: seq<nat>) {
    forall k :: 0 <= k < |plan| ==> plan[k] < |header|
  }

  /** Position of the first occurrence of `name` in `header` (`list.index`). */
  function IndexOf(header: Row, name: string): (i: nat)
    requires name in header
    ensures i < |header| && header[i] == name
    ensures forall j :: 0 <= j < i ==> header[j] != name
  {
    if header[0] == name then 0 else 1 + IndexOf(header[1..], name)
  }

  /** The selected names that occur in the header, in the caller's order:
      the reference for what the projection keeps. */
  function Known(header: Row, selected: seq<string>): (kept: seq<string>)
    ensures |kept| <= |selected|
    ensures forall c :: c in kept <==> c in selected && c in header
  {
    if selected == [] then []
    else if selected[0] in header then [selected[0]] + Known(header, selected[1..])
    else Known(header, selected[1..])
  }

  /** Filtering keeps the caller's order: it distributes over concatenation. */
  lemma {:induction false} KnownAppend(header: Row, s1: seq<string>, s2: seq<string>)
    ensures Known(header, s1 + s2) == Known(header, s1) + Known(header, s2)
  {
    if s1 != [] {
      assert (s1 + s2)[0] == s1[0] && (s1 + s2)[1..] == s1[1..] + s2;
      KnownAppend(header, s1[1..], s2);
      if s1[0] in header {
        var a, b := Known(header, s1[1..]), Known(header, s2);
        assert [s1[0]] + (a + b) == ([s1[0]] + a) + b;
      }
    } else {
      assert s1 + s2 == s2;
    }
  }

  /** Selecting only header names drops nothing and reorders nothing. */
  lemma {:induction false} KnownAllPresent(header: Row, selected: seq<string>)
    requires forall i :: 0 <= i < |selected| ==> selected[i] in header
    ensures Known(header, selected) == selected
  {
    if selected != [] {
      KnownAllPresent(header, selected[1..]);
      assert [selected[0]] + selected[1..] == selected;
    }
  }

  /** `selected_indices`: one header position per selected name that the
      header has, in the caller's order, each the name's first occurrence. */
  function SelectIndices(header: Row, selected: seq<string>): (plan: seq<nat>)
    ensures |plan| == |Known(header, selected)| <= |selected|
    ensures InBounds(header, plan)
    ensures forall k :: 0 <= k < |plan| ==> header[plan[k]] == Known(header, selected)[k]
    ensures forall k, j :: 0 <= k < |plan| && 0 <= j < plan[k] ==> header[j] != header[plan[k]]
  {
    if selected == [] then []
    else
      var rest := SelectIndices(header, selected[1..]);
      if selected[0] in header then
        assert Known(header, selected) == [selected[0]] + Known(header, selected[1..]);
        [IndexOf(header, selected[0])] + rest
      else
        assert Known(header, selected) == Known(header, selected[1..]);
        rest
  }

  /** Field `i` of `row`, or the empty string when the row is too short. */
  function Field(row: Row, i: nat): string {
    if i < |row| then row[i] else ""
  }

  /** `row_data`: the row cut down to the plan's columns. Short rows never
      fail: a missing field becomes the empty string. */
  function ProjectRow(row: Row, plan: seq<nat>): (r: Row)
    ensures |r| == |plan|
    ensures forall k :: 0 <= k < |plan| && plan[k] < |row| ==> r[k] == row[plan[k]]
    ensures forall k :: 0 <= k < |plan| && |row| <= plan[k] ==> r[k] == ""
  {
    seq(|plan|, k requires 0 <= k < |plan| => Field(row, plan[k]))
  }

  /** `row` extended with empty fields up to `width` columns. */
  function Pad(row: Row, width: nat): (r: Row)
    ensures |r| == if |row| < width then width else |row|
  {
    if |row| < width then row + seq(width - |row|, _ => "") else row
  }

  /** A short row is projected exactly as if it had been padded with empty
      fields up to the header's width. */
  lemma ShortRowIsPadded(row: Row, plan: seq<nat>, width: nat)
    requires forall k :: 0 <= k < |plan| ==> plan[k] < width
    ensures ProjectRow(Pad(row, width), plan) == ProjectRow(row, plan)
  {
  }

  /** The output header, `[header[i] for i in selected_indices]`. */
  function HeaderRow(header: Row, plan: seq<nat>): (r: Row)
    requires InBounds(header, plan)
    ensures |r| == |plan|
    ensures forall k :: 0 <= k < |plan| ==> r[k] == header[plan[k]]
  {
    seq(|plan|, k requires 0 <= k < |plan| => header[plan[k]])
  }

  /** The output header lists the selected names the header has, in the
      caller's order; and it is the header row projected like any other. */
  lemma ProjectedHeader(header: Row, selected: seq<string>)
    ensures HeaderRow(header, SelectIndices(header, selected)) == Known(header, selected)
    ensures HeaderRow(header, SelectIndices(header, selected)) == ProjectRow(header, SelectIndices(header, selected))
  {
  }

  /** Every data row projected by the plan, in input order. */
  function ProjectRows(rows: seq<Row>, plan: seq<nat>): (r: seq<Row>)
    ensures |r| == |rows|
    ensures forall i :: 0 <= i < |rows| ==> |r[i]| == |plan|
    ensures forall i, k :: 0 <= i < |rows| && 0 <= k < |plan| && plan[k] < |rows[i]| ==> r[i][k] == rows[i][plan[k]]
    ensures forall i, k :: 0 <= i < |rows| && 0 <= k < |plan| && |rows[i]| <= plan[k] ==> r[i][k] == ""
  {
    seq(|rows|, i requires 0 <= i < |rows| => ProjectRow(rows[i], plan))
  }
}
