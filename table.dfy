/** The `Table` component's state: the column list and the row list, replaced by a
    completed drag (`handleDragEnd`) and by the add-column button (`addColumn`). */
module Table {
  import opened Wrappers
  import opened Decimal
  import opened Lists
  import opened Columns
  import opened SeedData

  class TableState {
    var columns: seq<Column>
    var rows: seq<Row>

    /** Column ids are col1..colN, and there are five rows with ids row1..row5, each
        exactly once. */
    ghost predicate Valid()
      reads this
    {
      ColumnIdsCanonical(columns) && |rows| == 5 && RowIdsCanonical(rows)
    }

    /** The initial columns and the five seeded rows. */
    constructor ()
      ensures Valid()
      ensures columns == InitialColumns
      ensures |rows| == 5 && IsSeededPrefix(rows)
    {
      var seeded := SeedRows();
      columns := InitialColumns;
      rows := seeded;
      new;
      assert ColumnIdsCanonical(columns) by {
        InitialColumnsCanonical();
      }
    }

    /** A completed drag of `kind` from index `source` to `destination` (absent when the
        item was dropped outside a list). Only the list of that kind is replaced. */
    method HandleDragEnd(kind: string, source: nat, destination: Option<nat>)
      requires Valid()
      requires destination.Some? && kind == "COLUMN" ==> source < |columns| && destination.value < |columns|
      requires destination.Some? && kind == "ROW" ==> source < |rows| && destination.value < |rows|
      modifies this
      ensures Valid()
      ensures columns == if destination.Some? && kind == "COLUMN"
                         then Reorder(old(columns), source, destination.value) else old(columns)
      ensures rows == if destination.Some? && kind == "ROW"
                      then Reorder(old(rows), source, destination.value) else old(rows)
      ensures kind == "COLUMN" ==> Step(old(columns), Dragged(source, destination)) == Some(columns)
    {
      if destination.None? {
        return;
      }
      var dst := destination.value;

      if kind == "COLUMN" {
        var newColumns := columns;
        var removed := newColumns[source];
        newColumns := Remove(newColumns, source);
        newColumns := Insert(newColumns, dst, removed);
        ReorderKeepsIdsCanonical(columns, ColumnId, "col", source, dst);
        columns := newColumns;
      }

      if kind == "ROW" {
        var newData := rows;
        var moved := newData[source];
        newData := Remove(newData, source);
        newData := Insert(newData, dst, moved);
        ReorderKeepsIdsCanonical(rows, RowId, "row", source, dst);
        rows := newData;
      }
    }

    /** The add-column button; `name` is what the prompt returned (None for null). */
    method AddColumn(name: Option<string>)
      requires Valid()
      modifies this
      ensures Valid()
      ensures columns == Columns.AddColumn(old(columns), name)
      ensures Step(old(columns), Added(name)) == Some(columns)
      ensures IsTruthy(name) ==> columns[|old(columns)|].id !in ColumnIds(old(columns))
      ensures rows == old(rows)
    {
      AddedIdFresh(columns);
      AddColumnKeepsIdsCanonical(columns, name);
      columns := Columns.AddColumn(columns, name);
    }
  }

  /** Dragging the last column ("Category") to the front of a fresh table. */
  method ColumnDragScenario() returns (columns: seq<Column>, rowsKept: bool)
    ensures columns == [
      Column("col5", "Category"),
      Column("col1", "Name"),
      Column("col2", "Address"),
      Column("col3", "Age"),
      Column("col4", "Gender")
    ]
    ensures rowsKept
  {
    var table := new TableState();
    var before := table.rows;
    table.HandleDragEnd("COLUMN", 4, Some(0));
    columns := table.columns;
    assert columns == Reorder(InitialColumns, 4, 0);
    CategoryToFront();
    rowsKept := table.rows == before;
  }
}
