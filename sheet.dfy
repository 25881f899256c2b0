/** The rows of an uploaded spreadsheet as `xlsx.utils.sheet_to_json` returns them: one
    object per data row, whose keys are the header cells and whose values are the row's
    cells. A row is the list of its (header, cell text) pairs in column order; empty cells
    are absent. */
module Sheet {
  import opened Wrappers

  type SheetRow = seq<(string, string)>

  /** `row[key]`: the cell of the last pair with that key (a later assignment to the same
      key wins), or `undefined` (`None`) when no pair has it. */
  function Cell(row: SheetRow, key: string): (v: Option<string>)
    ensures v.None? <==> forall i :: 0 <= i < |row| ==> row[i].0 != key
    ensures v.Some? ==>
      exists i :: 0 <= i < |row| && row[i] == (key, v.value) &&
                  forall j :: i < j < |row| ==> row[j].0 != key
  {
    if row == [] then None
    else if row[|row| - 1].0 == key then Some(row[|row| - 1].1)
    else
      var init := row[..|row| - 1];
      var v := Cell(init, key);
      assert v.Some? ==>
        exists i :: 0 <= i < |row| && row[i] == (key, v.value) &&
                    forall j :: i < j < |row| ==> row[j].0 != key
      by {
        if v.Some? {
          var i :| 0 <= i < |init| && init[i] == (key, v.value) &&
                   forall j :: i < j < |init| ==> init[j].0 != key;
          assert row[i] == (key, v.value);
          assert forall j :: i < j < |row| ==> row[j].0 != key by {
            forall j | i < j < |row| ensures row[j].0 != key {
              if j < |init| { assert row[j] == init[j]; }
            }
          }
        }
      }
      v
  }

  /** A pair with the key and no later pair with it is the one `row[key]` reads. */
  lemma CellIsLast(row: SheetRow, key: string, i: int)
    requires 0 <= i < |row| && row[i].0 == key
    requires forall j :: i < j < |row| ==> row[j].0 != key
    ensures Cell(row, key) == Some(row[i].1)
  {
  }
}
