/** The dashboard's row filter: the table keeps the rows whose Sponsor is
    among the selected sponsors and whose Status is among the selected
    statuses, as a boolean mask applied to the table. */
module TableFilter {
  import opened PyValues
  import opened Trials

  /** The mask `Sponsor.isin(sponsors) & Status.isin(statuses)` at one row. */
  predicate Selected(row: TrialRecord, sponsors: seq<Json>, statuses: seq<Json>)
  {
    row.sponsor in sponsors && row.status in statuses
  }

  /** The positions where the mask is true, in increasing order. */
  function MaskIndices(rows: seq<TrialRecord>, sponsors: seq<Json>, statuses: seq<Json>): (idx: seq<nat>)
    ensures forall k | 0 <= k < |idx| :: idx[k] < |rows| && Selected(rows[idx[k]], sponsors, statuses)
    ensures forall k, l | 0 <= k < l < |idx| :: idx[k] < idx[l]
    ensures forall i | 0 <= i < |rows| && Selected(rows[i], sponsors, statuses) :: i in idx
  {
    if rows == [] then []
    else
      var n := |rows| - 1;
      var earlier := MaskIndices(rows[..n], sponsors, statuses);
      assert forall k | 0 <= k < |earlier| :: rows[..n][earlier[k]] == rows[earlier[k]];
      assert forall i | 0 <= i < n :: rows[..n][i] == rows[i];
      earlier + (if Selected(rows[n], sponsors, statuses) then [n] else [])
  }

  /** `df[mask]`: the selected rows, in table order. */
  function FilterRows(rows: seq<TrialRecord>, sponsors: seq<Json>, statuses: seq<Json>): (kept: seq<TrialRecord>)
    ensures |kept| <= |rows|
  {
    if rows == [] then []
    else
      var n := |rows| - 1;
      FilterRows(rows[..n], sponsors, statuses) + (if Selected(rows[n], sponsors, statuses) then [rows[n]] else [])
  }

  /** The filtered table is the table read at the mask's true positions, in
      increasing order: an order-preserving subsequence of the rows. */
  lemma {:induction false} FilterFollowsMask(rows: seq<TrialRecord>, sponsors: seq<Json>, statuses: seq<Json>)
    ensures var idx := MaskIndices(rows, sponsors, statuses);
      var kept := FilterRows(rows, sponsors, statuses);
      |kept| == |idx| && forall k | 0 <= k < |idx| :: kept[k] == rows[idx[k]]
  {
    if rows != [] {
      var n := |rows| - 1;
      FilterFollowsMask(rows[..n], sponsors, statuses);
      var idx := MaskIndices(rows[..n], sponsors, statuses);
      var kept := FilterRows(rows[..n], sponsors, statuses);
      var last := if Selected(rows[n], sponsors, statuses) then [rows[n]] else [];
      var lastIdx := if Selected(rows[n], sponsors, statuses) then [n] else [];
      assert MaskIndices(rows, sponsors, statuses) == idx + lastIdx;
      assert FilterRows(rows, sponsors, statuses) == kept + last;
      forall k | 0 <= k < |idx + lastIdx|
        ensures (kept + last)[k] == rows[(idx + lastIdx)[k]]
      {
        if k < |idx| {
          assert rows[..n][idx[k]] == rows[idx[k]];
        }
      }
    }
  }

  /** A row is in the filtered table exactly when it is in the table and
      both its Sponsor and its Status are selected. */
  lemma {:induction false} FilterKeepsExactlySelected(rows: seq<TrialRecord>, sponsors: seq<Json>, statuses: seq<Json>, row: TrialRecord)
    ensures row in FilterRows(rows, sponsors, statuses) <==> row in rows && Selected(row, sponsors, statuses)
  {
    FilterFollowsMask(rows, sponsors, statuses);
    var idx := MaskIndices(rows, sponsors, statuses);
    var kept := FilterRows(rows, sponsors, statuses);
    if row in kept {
      var k :| 0 <= k < |kept| && kept[k] == row;
      assert rows[idx[k]] == row;
    }
    if row in rows && Selected(row, sponsors, statuses) {
      var i :| 0 <= i < |rows| && rows[i] == row;
      assert i in idx;
      var k :| 0 <= k < |idx| && idx[k] == i;
      assert kept[k] == row;
    }
  }

  /** With every Sponsor and every Status of the table selected (the
      multiselects' default), the filter keeps the whole table. */
  lemma {:induction false} FilterAllSelectedKeepsTable(rows: seq<TrialRecord>, sponsors: seq<Json>, statuses: seq<Json>)
    requires forall i | 0 <= i < |rows| :: rows[i].sponsor in sponsors && rows[i].status in statuses
    ensures FilterRows(rows, sponsors, statuses) == rows
  {
    if rows != [] {
      var n := |rows| - 1;
      FilterAllSelectedKeepsTable(rows[..n], sponsors, statuses);
      assert rows[..n] + [rows[n]] == rows;
    }
  }

  /** Filtering a table in two parts is filtering each part. */
  lemma {:induction false} FilterSplits(a: seq<TrialRecord>, b: seq<TrialRecord>, sponsors: seq<Json>, statuses: seq<Json>)
    ensures FilterRows(a + b, sponsors, statuses) == FilterRows(a, sponsors, statuses) + FilterRows(b, sponsors, statuses)
    decreases |b|
  {
    if b == [] {
      assert a + b == a;
    } else {
      var n := |b| - 1;
      assert (a + b)[..|a + b| - 1] == a + b[..n];
      FilterSplits(a, b[..n], sponsors, statuses);
    }
  }

  /** Applying the same selection to the filtered table changes nothing. */
  lemma {:induction false} FilterIdempotent(rows: seq<TrialRecord>, sponsors: seq<Json>, statuses: seq<Json>)
    ensures FilterRows(FilterRows(rows, sponsors, statuses), sponsors, statuses) == FilterRows(rows, sponsors, statuses)
  {
    if rows != [] {
      var n := |rows| - 1;
      var kept := FilterRows(rows[..n], sponsors, statuses);
      var last := if Selected(rows[n], sponsors, statuses) then [rows[n]] else [];
      FilterIdempotent(rows[..n], sponsors, statuses);
      FilterSplits(kept, last, sponsors, statuses);
      if last != [] {
        assert last[..0] == [];
      }
    }
  }
}
