/** The column registry of the table: descriptors `{id, name}`, the initial five columns,
    appending a column named through the prompt, and the invariant that the ids are always
    exactly col1..colN whatever sequence of drags and appends produced the list. */
module Columns {
  import opened Wrappers
  import opened Decimal
  import opened Lists

  datatype Column = Column(id: string, name: string)

  const InitialColumns: seq<Column> := [
    Column("col1", "Name"),
    Column("col2", "Address"),
    Column("col3", "Age"),
    Column("col4", "Gender"),
    Column("col5", "Category")
  ]

  function ColumnId(c: Column): string {
    c.id
  }

  /** The ids of `cols`, position by position. */
  function ColumnIds(cols: seq<Column>): seq<string> {
    Ids(cols, ColumnId)
  }

  /** The ids of `cols` are col1..colN in some order, each exactly once. */
  predicate ColumnIdsCanonical(cols: seq<Column>) {
    IdsCanonical(cols, ColumnId, "col")
  }

  /** JavaScript truthiness of what the prompt returned: null and "" are falsy. */
  predicate IsTruthy(name: Option<string>) {
    name.Some? && name.value != ""
  }

  /** `addColumn`: a truthy name appends `{id: "col" + (N + 1), name}`, anything else
      leaves the columns as they are. */
  function AddColumn(cols: seq<Column>, name: Option<string>): (r: seq<Column>)
    ensures !IsTruthy(name) ==> r == cols
    ensures IsTruthy(name) ==> |r| == |cols| + 1 && r[..|cols|] == cols
    ensures IsTruthy(name) ==> r[|cols|].name == name.value && r[|cols|].id == Label("col", |cols| + 1)
  {
    if IsTruthy(name) then cols + [Column(Label("col", |cols| + 1), name.value)] else cols
  }

  lemma InitialColumnsCanonical()
    ensures ColumnIdsCanonical(InitialColumns)
  {
    var labels := Labels("col", 5);
    assert labels[0] == Label("col", 1) == "col1";
    assert labels[1] == Label("col", 2) == "col2";
    assert labels[2] == Label("col", 3) == "col3";
    assert labels[3] == Label("col", 4) == "col4";
    assert labels[4] == Label("col", 5) == "col5";
    assert ColumnIds(InitialColumns) == labels;
  }

  lemma AddColumnKeepsIdsCanonical(cols: seq<Column>, name: Option<string>)
    requires ColumnIdsCanonical(cols)
    ensures ColumnIdsCanonical(AddColumn(cols, name))
  {
    if IsTruthy(name) {
      var r := AddColumn(cols, name);
      assert ColumnIds(r) == ColumnIds(cols) + [Label("col", |cols| + 1)];
    }
  }

  lemma LabelsDistinct(prefix: string, n: nat)
    ensures Distinct(Labels(prefix, n))
  {
    var labels := Labels(prefix, n);
    forall i, j | 0 <= i < j < n ensures labels[i] != labels[j] {
      if labels[i] == labels[j] {
        LabelInjective(prefix, i + 1, j + 1);
      }
    }
  }

  lemma SameMembers(s: seq<string>, t: seq<string>)
    requires multiset(s) == multiset(t)
    ensures forall x :: x in s <==> x in t
  {
    forall x ensures x in s <==> x in t {
      assert x in s <==> x in multiset(s);
      assert x in t <==> x in multiset(t);
    }
  }

  /** Under the invariant the ids are pairwise distinct and form the set {col1..colN}. */
  lemma CanonicalIds(cols: seq<Column>)
    requires ColumnIdsCanonical(cols)
    ensures forall i, j :: 0 <= i < j < |cols| ==> cols[i].id != cols[j].id
    ensures forall x :: x in ColumnIds(cols) <==> x in Labels("col", |cols|)
  {
    var ids, labels := ColumnIds(cols), Labels("col", |cols|);
    LabelsDistinct("col", |cols|);
    DistinctByMultiset(ids, labels);
    SameMembers(ids, labels);
  }

  /** The id `addColumn` mints is not the id of any existing column. */
  lemma AddedIdFresh(cols: seq<Column>)
    requires ColumnIdsCanonical(cols)
    ensures Label("col", |cols| + 1) !in ColumnIds(cols)
  {
    CanonicalIds(cols);
    LabelInLabels("col", |cols| + 1, |cols|);
  }

  /** Moving the fifth initial column ("Category") to index 0. */
  lemma CategoryToFront()
    ensures Reorder(InitialColumns, 4, 0) == [
      Column("col5", "Category"),
      Column("col1", "Name"),
      Column("col2", "Address"),
      Column("col3", "Age"),
      Column("col4", "Gender")
    ]
  {
    LastToFront(InitialColumns);
  }

  lemma LastToFront(cols: seq<Column>)
    requires |cols| == 5
    ensures Reorder(cols, 4, 0) == [cols[4], cols[0], cols[1], cols[2], cols[3]]
  {
    ReorderAt(cols, 4, 0, 0);
    ReorderAt(cols, 4, 0, 1);
    ReorderAt(cols, 4, 0, 2);
    ReorderAt(cols, 4, 0, 3);
    ReorderAt(cols, 4, 0, 4);
  }

  /** The column-side events the table handles: a completed column drag and a prompt answer. */
  datatype ColumnEvent = Dragged(source: nat, destination: Option<nat>) | Added(name: Option<string>)

  /** How many columns `events` append: one per truthy prompt answer. */
  function Appended(events: seq<ColumnEvent>): (n: nat)
    ensures n <= |events|
  {
    if events == [] then 0
    else (if events[0].Added? && IsTruthy(events[0].name) then 1 else 0) + Appended(events[1..])
  }

  /** The columns after one event, or None when a drag reports an index outside the list
      (which the drag library never does). */
  function Step(cols: seq<Column>, event: ColumnEvent): (r: Option<seq<Column>>)
    ensures r.None? <==> event.Dragged? && event.destination.Some?
                         && !(event.source < |cols| && event.destination.value < |cols|)
    ensures r.Some? ==> |r.value| == |cols| + Appended([event])
    ensures r.Some? && event.Dragged? ==> multiset(r.value) == multiset(cols)
    ensures r.Some? && event.Added? ==> r.value[..|cols|] == cols
    ensures event.Dragged? && event.destination.None? ==> r == Some(cols)
    ensures event.Dragged? && event.destination.Some? && r.Some? ==>
              r.value == Reorder(cols, event.source, event.destination.value)
    ensures event.Added? ==> r == Some(AddColumn(cols, event.name))
  {
    match event
    case Dragged(src, None) => Some(cols)
    case Dragged(src, Some(dst)) =>
      if src < |cols| && dst < |cols| then Some(Reorder(cols, src, dst)) else None
    case Added(name) => Some(AddColumn(cols, name))
  }

  /** The columns after `events`, in order. Every truthy prompt answer adds one column, and a
      run of prompt answers alone keeps the old columns as a prefix. */
  function Replay(cols: seq<Column>, events: seq<ColumnEvent>): (r: Option<seq<Column>>)
    ensures r.Some? ==> |r.value| == |cols| + Appended(events)
    ensures (forall k :: 0 <= k < |events| ==> events[k].Added?) ==> r.Some? && r.value[..|cols|] == cols
    decreases |events|
  {
    if events == [] then Some(cols)
    else
      assert Appended(events) == Appended([events[0]]) + Appended(events[1..]);
      match Step(cols, events[0])
      case None => None
      case Some(next) =>
        var r := Replay(next, events[1..]);
        assert (forall k :: 0 <= k < |events| ==> events[k].Added?) && r.Some? ==>
          r.value[..|cols|] == r.value[..|next|][..|cols|];
        r
  }

  lemma StepKeepsIdsCanonical(cols: seq<Column>, event: ColumnEvent)
    requires ColumnIdsCanonical(cols)
    ensures Step(cols, event).Some? ==> ColumnIdsCanonical(Step(cols, event).value)
  {
    match event
    case Dragged(src, None) =>
    case Dragged(src, Some(dst)) =>
      if src < |cols| && dst < |cols| {
        assert Step(cols, event) == Some(Reorder(cols, src, dst));
        ReorderKeepsIdsCanonical(cols, ColumnId, "col", src, dst);
      }
    case Added(name) =>
      assert Step(cols, event) == Some(AddColumn(cols, name));
      AddColumnKeepsIdsCanonical(cols, name);
  }

  lemma {:induction false} ReplayKeepsIdsCanonical(cols: seq<Column>, events: seq<ColumnEvent>)
    requires ColumnIdsCanonical(cols)
    ensures Replay(cols, events).Some? ==> ColumnIdsCanonical(Replay(cols, events).value)
    decreases |events|
  {
    if events != [] {
      StepKeepsIdsCanonical(cols, events[0]);
      var next := Step(cols, events[0]);
      if next.Some? {
        ReplayKeepsIdsCanonical(next.value, events[1..]);
      }
    }
  }

  /** From the initial columns, every reachable column list has the ids col1..colN,
      pairwise distinct. */
  lemma ReachableIdsCanonical(events: seq<ColumnEvent>, cols: seq<Column>)
    requires Replay(InitialColumns, events) == Some(cols)
    ensures ColumnIdsCanonical(cols)
    ensures forall i, j :: 0 <= i < j < |cols| ==> cols[i].id != cols[j].id
    ensures forall x :: x in ColumnIds(cols) <==> x in Labels("col", |cols|)
  {
    InitialColumnsCanonical();
    ReplayKeepsIdsCanonical(InitialColumns, events);
    CanonicalIds(cols);
  }
}
