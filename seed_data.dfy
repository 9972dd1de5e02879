/** The demo data: `generateRandomData` for one column name, the spread of its result into
    an index-keyed row object, and the five seeded rows row1..row5. */
module SeedData {
  import opened Decimal
  import opened Lists

  /** A cell value: the generator pushes strings and, for ages, numbers. */
  datatype Cell = Text(text: string) | Number(number: int)

  /** A row record: its id and the remaining own properties of the row object. */
  datatype Row = Row(id: string, cells: map<string, Cell>)

  predicate IsKnownColumn(column: string) {
    column == "Name" || column == "Address" || column == "Age" || column == "Gender" || column == "Category"
  }

  /** The age pushed for a draw `r` of `Math.random`: `Math.floor(r * 100)`. */
  function Age(r: real): (age: int)
    requires 0.0 <= r < 1.0
    ensures 0 <= age < 100
    ensures age as real <= r * 100.0 < age as real + 1.0
  {
    (r * 100.0).Floor
  }

  /** `generateRandomData(column)`; `random[i]` is what `Math.random()` returns in round `i`. */
  method GenerateRandomData(column: string, random: seq<real>) returns (data: seq<Cell>)
    requires column == "Age" ==> |random| >= 5 && forall k :: 0 <= k < 5 ==> 0.0 <= random[k] < 1.0
    ensures IsKnownColumn(column) ==> |data| == 5
    ensures !IsKnownColumn(column) ==> data == []
    ensures column == "Name" ==> forall k :: 0 <= k < 5 ==> data[k] == Text(Label("Name ", k + 1))
    ensures column == "Address" ==> forall k :: 0 <= k < 5 ==> data[k] == Text(Label("Address ", k + 1))
    ensures column == "Age" ==> forall k :: 0 <= k < 5 ==> data[k] == Number(Age(random[k]))
    ensures column == "Age" ==> forall k :: 0 <= k < 5 ==> data[k].Number? && 0 <= data[k].number < 100
    ensures column == "Gender" ==> forall k :: 0 <= k < 5 ==> data[k] == Text(if k % 2 == 0 then "Male" else "Female")
    ensures column == "Category" ==> forall k :: 0 <= k < 5 ==> data[k] == Text(Label("Category ", k + 1))
  {
    data := [];
    for i := 0 to 5
      invariant IsKnownColumn(column) ==> |data| == i
      invariant !IsKnownColumn(column) ==> data == []
      invariant column == "Name" ==> forall k :: 0 <= k < i ==> data[k] == Text(Label("Name ", k + 1))
      invariant column == "Address" ==> forall k :: 0 <= k < i ==> data[k] == Text(Label("Address ", k + 1))
      invariant column == "Age" ==> forall k :: 0 <= k < i ==> data[k] == Number(Age(random[k]))
      invariant column == "Gender" ==> forall k :: 0 <= k < i ==> data[k] == Text(if k % 2 == 0 then "Male" else "Female")
      invariant column == "Category" ==> forall k :: 0 <= k < i ==> data[k] == Text(Label("Category ", k + 1))
    {
      if column == "Name" {
        data := data + [Text(Label("Name ", i + 1))];
      } else if column == "Address" {
        data := data + [Text(Label("Address ", i + 1))];
      } else if column == "Age" {
        data := data + [Number(Age(random[i]))];
      } else if column == "Gender" {
        data := data + [Text(if i % 2 == 0 then "Male" else "Female")];
      } else if column == "Category" {
        data := data + [Text(Label("Category ", i + 1))];
      }
    }
  }

  /** The own properties an array contributes to an object literal it is spread into:
      its elements keyed "0", "1", ... */
  function Spread(values: seq<Cell>): (cells: map<string, Cell>)
    ensures cells.Keys == IndexKeys(|values|)
    ensures forall k :: 0 <= k < |values| ==> NatToString(k) in cells && cells[NatToString(k)] == values[k]
  {
    if values == [] then map[]
    else
      var n := |values| - 1;
      var prefix := Spread(values[..n]);
      NatToStringDistinctFrom(n);
      prefix[NatToString(n) := values[n]]
  }

  /** The keys "0", ..., "n-1". */
  function IndexKeys(n: nat): set<string> {
    if n == 0 then {} else IndexKeys(n - 1) + {NatToString(n - 1)}
  }

  lemma {:induction false} InIndexKeys(n: nat, x: string)
    ensures x in IndexKeys(n) <==> exists k :: 0 <= k < n && x == NatToString(k)
  {
    if n > 0 {
      InIndexKeys(n - 1, x);
      if x == NatToString(n - 1) {
        assert 0 <= n - 1 < n && x == NatToString(n - 1);
      }
    }
  }

  lemma NatToStringDistinctFrom(n: nat)
    ensures forall k :: 0 <= k < n ==> NatToString(k) != NatToString(n)
  {
    forall k | 0 <= k < n ensures NatToString(k) != NatToString(n) {
      if NatToString(k) == NatToString(n) {
        NatToStringInjective(k, n);
      }
    }
  }

  /** The cells of a seeded row: exactly the keys "0".."4", holding "Name 1".."Name 5". */
  predicate IsSeededCells(cells: map<string, Cell>) {
    && cells.Keys == IndexKeys(5)
    && forall k :: 0 <= k < 5 ==> cells[NatToString(k)] == Text(Label("Name ", k + 1))
  }

  function RowId(row: Row): string {
    row.id
  }

  /** The ids of `rows` are row1..rowN in some order, each exactly once. */
  predicate RowIdsCanonical(rows: seq<Row>) {
    IdsCanonical(rows, RowId, "row")
  }

  /** Row r of `rows` has id row(r+1) and the seeded cells. */
  predicate IsSeededPrefix(rows: seq<Row>) {
    forall r :: 0 <= r < |rows| ==> rows[r].id == Label("row", r + 1) && IsSeededCells(rows[r].cells)
  }

  lemma SeededPrefixGrows(rows: seq<Row>, cells: map<string, Cell>)
    requires IsSeededPrefix(rows) && IsSeededCells(cells)
    ensures IsSeededPrefix(rows + [Row(Label("row", |rows| + 1), cells)])
  {
  }

  /** The seeding loop: five rows with ids row1..row5, each holding the spread of the
      generated names. */
  method SeedRows() returns (rows: seq<Row>)
    ensures |rows| == 5
    ensures IsSeededPrefix(rows)
    ensures RowIdsCanonical(rows)
  {
    rows := [];
    for i := 0 to 5
      invariant |rows| == i
      invariant IsSeededPrefix(rows)
    {
      var names := GenerateRandomData("Name", []);
      SpreadNames(names);
      SeededPrefixGrows(rows, Spread(names));
      rows := rows + [Row(Label("row", i + 1), Spread(names))];
    }
    SeededRowIdsCanonical(rows);
  }

  /** Rows seeded in order have the ids row1..rowN, each exactly once. */
  lemma SeededRowIdsCanonical(rows: seq<Row>)
    requires IsSeededPrefix(rows)
    ensures RowIdsCanonical(rows)
  {
    LabelledIds(rows, RowId, "row");
  }

  lemma SpreadNames(names: seq<Cell>)
    requires |names| == 5
    requires forall k :: 0 <= k < 5 ==> names[k] == Text(Label("Name ", k + 1))
    ensures IsSeededCells(Spread(names))
  {
  }
}
