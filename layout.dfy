/** The sort controls of the page layout: the sort configuration a click on a
    field produces, and the arrow shown next to each field. */
module LayoutLogic {
  import opened Wrappers
  import opened Tasks
  import opened SortUtils

  /** `ArrowUpAZ` and `ArrowDownAZ`. */
  datatype SortIcon = ArrowUpAZ | ArrowDownAZ

  /** `handleSortChange(field)`: the configuration handed to `onSortChange`. */
  function HandleSortChange(current: SortConfig, field: SortField): SortConfig {
    if current.field == field then
      SortConfig(field, if current.order == Asc then Desc else Asc, map[], map[])
    else
      SortConfig(field, Asc, map[], map[])
  }

  /** `getSortIcon(field)`: `None` where nothing is rendered. */
  function GetSortIcon(current: SortConfig, field: SortField): Option<SortIcon> {
    if current.field != field then None
    else if current.order == Asc then Some(ArrowUpAZ)
    else Some(ArrowDownAZ)
  }

  /** Clicking the active field flips the order; clicking another field sorts
      it ascending; either way the new field is the one clicked and both
      weight tables are empty. */
  lemma SortChangeOutcome(current: SortConfig, field: SortField)
    ensures var next := HandleSortChange(current, field);
      && next.field == field
      && next.priorityOrder == map[] && next.statusOrder == map[]
      && (current.field == field ==> next.order != current.order)
      && (current.field != field ==> next.order == Asc)
  {
  }

  /** Clicking the same field twice restores the order it started with. */
  lemma SortChangeTwiceRestoresOrder(current: SortConfig, field: SortField)
    ensures HandleSortChange(HandleSortChange(current, field), field).order
         == (if current.field == field then current.order else Desc)
    ensures current.field == field ==>
      HandleSortChange(HandleSortChange(current, field), field).order == current.order
  {
  }

  /** Only the active field carries an arrow, and the arrow shows its order. */
  lemma SortIconShowsOrder(current: SortConfig, field: SortField)
    ensures GetSortIcon(current, field).Some? <==> field == current.field
    ensures GetSortIcon(current, field) == Some(ArrowUpAZ) <==> field == current.field && current.order == Asc
    ensures GetSortIcon(current, field) == Some(ArrowDownAZ) <==> field == current.field && current.order == Desc
  {
  }

  /** After clicking the active field again, tasks are compared the opposite
      way round: the new comparator is the old one negated. */
  lemma ToggleReversesComparison(current: SortConfig, weights: WeightTables,
                                 collate: (string, string) -> int, a: Task, b: Task)
    ensures TaskComparison(HandleSortChange(current, current.field), weights, collate)(a, b)
         == -TaskComparison(current, weights, collate)(a, b)
  {
  }
}
