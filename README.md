# Drag-to-reorder table: state model

This project models the state behind the `Table` component of `src/App.js`. The component holds a
list of column descriptors `{id, name}` and a list of row records. It changes them in two ways:

- A completed drag (`handleDragEnd`) of kind `COLUMN` or `ROW` moves one element of the matching
  list. It uses `Array.prototype.splice`: remove at the source index, then insert at the
  destination index, counted after the removal.
- The add-column button (`addColumn`) appends `{id: "col" + (N + 1), name}` when the prompt
  returns a non-empty name.

The model also covers the demo data: `generateRandomData` for one column name, and the five
seeded rows `row1..row5`.

Modules:

- `Wrappers`: `Option`, used for the drop destination (absent when the item is dropped outside a
  list) and for the prompt's answer (`None` for `null`).
- `Decimal`: how a template literal writes a natural number (`NatToString`), with its inverse
  `DigitsValue`, for the naturals below 10^21, which covers every array length and index. Also
  the labels built from it ("col3", "row2", "Name 4").
- `Lists`: the two splice steps (`Remove`, `Insert`) and `Reorder`, built from them. `Reorder` is
  proved against an index-by-index reference (`Origin`). It is also proved undone by the reverse
  move, and pinned down exactly by its contract. It also holds the id projection `Ids` shared by
  columns and rows, and `IdsCanonical`: the ids are prefix1..prefixN, each exactly once.
- `Columns`: the descriptor, the initial five columns and `AddColumn`. Its invariant
  `ColumnIdsCanonical` says the ids are col1..colN, each exactly once. One column event (`Step`)
  or a sequence of them (`Replay`) is the reference for the class methods, and the invariant is
  proved to hold for every column list reachable from the initial one.
- `SeedData`: cell values, rows, `GenerateRandomData` (a loop, as in the source), the spread of an
  array into an object (`Spread`), and the seeding loop `SeedRows`.
- `Table`: the class `TableState`. Its fields `columns` and `rows` are replaced by
  `HandleDragEnd` and `AddColumn`, and its `Valid()` invariant holds the column and row id
  invariants.

Points where the code behaves in a way worth stating (the model follows the code):

- `addColumn` rejects only `null` and the empty string. A name made only of spaces is accepted
  and appended.
- The component holds no column width. Widths and their bounds (100 to 400) are arguments to the
  third-party resizable box.
- Drag indices outside the list are not a no-op in the code. The drag library only reports
  in-range indices, so in-range indices are preconditions of `HandleDragEnd`.
- The seeded rows are not keyed by column name. Spreading the array returned by
  `generateRandomData('Name')` gives the keys "0".."4", holding "Name 1".."Name 5". `SeedRows`
  states exactly this.

## Model

| member | source | states |
|---|---|---|
| `Lists.Remove` | src/App.js:47 | `splice(i, 1)`: one element shorter; elements before `i` stay, later ones shift down by one; multiset loses exactly `s[i]` |
| `Lists.Insert` | src/App.js:48 | `splice(i, 0, x)`: `x` sits at `i`; elements before `i` stay, later ones shift up by one; multiset gains exactly `x` |
| `Lists.RemoveAfterInsert` | src/App.js:47-48 | removing at `i` right after inserting at `i` gives back the list |
| `Lists.InsertAfterRemove` | src/App.js:47-48 | putting `s[i]` back at `i` after removing it gives back the list |
| `Lists.Reorder` | src/App.js:46-48 | same length, same multiset of elements; the moved element is at `dst`; the other elements are the original list without index `src`, in order |
| `Lists.ReorderAt` | src/App.js:47-48 | index-by-index reference: element `i` of the result is the original element at `Origin(src, dst, i)` |
| `Lists.ReorderUnique` | src/App.js:47-48 | any list with the length, moved element and remaining order stated by `Reorder`'s contract is that reorder |
| `Lists.ReorderSelf` | src/App.js:47-48 | a move from `i` to `i` leaves the list unchanged |
| `Lists.ReorderUndo` | src/App.js:47-48 | moving the element back from `dst` to `src` restores the original list |
| `Lists.ReorderIds` | src/App.js:46-55 | the ids of a reordered list (columns or rows) are the old ids reordered the same way |
| `Lists.ReorderKeepsIdsCanonical` | src/App.js:46-56 | a reorder keeps the ids equal to prefix1..prefixN, each once |
| `Lists.LabelledIds` | src/App.js:37 | a list whose k-th id is prefix(k+1) has the id list prefix1..prefixN |
| `Lists.ReorderExample` | src/App.js:47-48 | [A,B,C,D,E] moved from 0 to 2 gives [B,C,A,D,E] (destination counted after removal) |
| `Decimal.NatToString` | src/App.js:63 | the decimal text of a number is non-empty, all digits, and has no leading zero |
| `Decimal.DigitsValueOfNatToString` | src/App.js:63 | reading the decimal text of `n` back gives `n` |
| `Decimal.NatToStringInjective` | src/App.js:63 | different numbers have different decimal texts |
| `Decimal.LabelInjective` | src/App.js:63 | `prefix + a` and `prefix + b` written as text are equal only when `a == b` |
| `Decimal.Labels` | src/App.js:6-12 | the list prefix1..prefixN: length N, element k is prefix(k+1) |
| `Decimal.LabelInLabels` | src/App.js:63 | prefixM is among prefix1..prefixN exactly when 1 <= M <= N |
| `Columns.AddColumn` | src/App.js:60-65 | a null or empty name leaves the columns unchanged; otherwise the old columns, unchanged and in order, followed by one column with id `"col" + (N+1)` and the given name |
| `Columns.InitialColumnsCanonical` | src/App.js:6-12 | the initial columns have the ids col1..col5 |
| `Columns.AddColumnKeepsIdsCanonical` | src/App.js:60-65 | appending a column keeps the ids equal to col1..colN, each once (N grows by one) |
| `Columns.LabelsDistinct` | src/App.js:6-12 | col1..colN has no repeats |
| `Columns.CanonicalIds` | src/App.js:79 | under the invariant, column ids are pairwise distinct and are exactly the set {col1..colN} |
| `Columns.AddedIdFresh` | src/App.js:63 | under the invariant, the id `addColumn` creates is not used by any existing column |
| `Columns.CategoryToFront` | src/App.js:46-48 | dragging the initial column 4 ("Category") to 0 gives Category, Name, Address, Age, Gender, with their ids |
| `Columns.LastToFront` | src/App.js:47-48 | in a five-element list, moving index 4 to 0 puts it first and shifts the rest by one |
| `Columns.Step` | src/App.js:43-50 | one column event: a drag without destination keeps the columns; a drag is refused (None) exactly when an index is outside the list; an in-range drag gives `Reorder(cols, src, dst)`, so keeps the multiset of columns and the length; a prompt answer gives `AddColumn(cols, name)`, keeping the old columns as a prefix and adding one column exactly when the answer is truthy |
| `Columns.Replay` | src/App.js:42-65 | after a sequence of column events the list has grown by exactly the number of truthy prompt answers; a sequence of prompt answers alone always succeeds and keeps the old columns as a prefix |
| `Columns.StepKeepsIdsCanonical` | src/App.js:42-65 | one column drag or prompt answer keeps the id invariant |
| `Columns.ReplayKeepsIdsCanonical` | src/App.js:42-65 | any sequence of column drags (with or without destination) and prompt answers keeps the id invariant |
| `Columns.ReachableIdsCanonical` | src/App.js:6-12 | every column list reachable from the initial columns has ids exactly {col1..colN}, pairwise distinct |
| `SeedData.Age` | src/App.js:22 | `Math.floor(r * 100)` for a draw `r` in [0,1) is an integer in [0,100) and is the floor of `r * 100` |
| `SeedData.GenerateRandomData` | src/App.js:14-29 | five values for Name, Address, Age, Gender, Category and none for any other name; element i is "Name i+1" (likewise Address, Category), "Male" for even i and "Female" for odd i, or the age drawn in round i, an integer in [0,100) |
| `SeedData.Spread` | src/App.js:38 | spreading an array gives the keys "0".."n-1" exactly, key "k" holding element k |
| `SeedData.InIndexKeys` | src/App.js:38 | a key is among "0".."n-1" exactly when it is the decimal text of some k < n |
| `SeedData.NatToStringDistinctFrom` | src/App.js:38 | the keys of different array indices differ |
| `SeedData.SpreadNames` | src/App.js:38 | spreading the generated names gives cells "0".."4" holding "Name 1".."Name 5" |
| `SeedData.SeedRows` | src/App.js:35-40 | five rows, ids row1..row5 in order, each with cells "0".."4" holding "Name 1".."Name 5"; the row ids are row1..row5, each once |
| `SeedData.SeededRowIdsCanonical` | src/App.js:37 | rows seeded in order have the ids row1..rowN, each once |
| `SeedData.SeededPrefixGrows` | src/App.js:35-40 | appending row(N+1) with the seeded cells to N correctly seeded rows gives N+1 correctly seeded rows |
| `Table.TableState.constructor` | src/App.js:33-40 | the state starts with the initial columns and the five seeded rows, and satisfies the id invariants |
| `Table.TableState.HandleDragEnd` | src/App.js:42-58 | no destination: nothing changes; a COLUMN drag replaces only the columns, with their reorder, and gives what `Columns.Step` gives for that drag; a ROW drag replaces only the rows, with their reorder; any other kind changes nothing; the id invariants are kept |
| `Table.TableState.AddColumn` | src/App.js:60-65 | the columns become `Columns.AddColumn` of the old columns, which is what `Columns.Step` gives for that prompt answer; the new id is fresh; rows are unchanged; the id invariants are kept |
| `Table.ColumnDragScenario` | src/App.js:45-50 | on a fresh table, dragging column 4 to 0 gives Category, Name, Address, Age, Gender, and the rows are unchanged |

## Left out

- Rendering (JSX, lines 67-147) and the drag library's gesture capture. The model takes the
  decoded `{type, source.index, destination?.index}` as input. The `draggableId` text (line 115)
  is presentation only.
- Decimal.NatToString: renders every natural in plain digits. JavaScript switches to exponent
  notation from 10^21 on and loses exactness above 2^53; no array length or index reaches that.
- Column width and resizing. No width is held in the component's state. The width 200 and the
  bounds 100/400 are passed to the third-party resizable box, whose clamping is not part of this
  model.
- `prompt` (line 61) is a blocking browser call. Its result is the `Option<string>` parameter of
  `AddColumn`.
- `Math.random` (line 22) is a foreign, nondeterministic call. Its draws are the `random`
  parameter of `GenerateRandomData`, assumed to lie in [0,1).
- SeedData.Age: computed over exact reals, not IEEE doubles. This does not model floating-point
  rounding of `r * 100`.
- React's `useState` lifecycle and re-rendering. The row-seeding loop (lines 35-40) pushes
  into the state array itself, on every render. In the component each `setColumns` or `setData`
  re-renders and appends row1..row5 again: 10 rows after the first drag, then 15, with repeated
  ids. The model runs the push once, in the constructor.
- Drag indices outside the list are excluded by `HandleDragEnd`'s precondition, because the drag
  library only reports in-range indices. A raw `splice` with such an index would not be a no-op.
  `Columns.Replay` yields `None` for such a drag instead of inventing a behaviour.
- No handler adds rows, and the render-time push is modelled once. So `Table.TableState.Valid`
  (five rows with ids row1..row5, each once), the "a COLUMN drag replaces only the columns" part
  of `Table.TableState.HandleDragEnd`, and the `rowsKept` result of `Table.ColumnDragScenario` are
  facts of the model. They do not hold of the re-rendering component, whose row list grows.
