/** `sortTasks`: sorts a copy of a task array by one field, through a
    comparator that compares two values of the same kind, and negates the
    comparison for any order other than ascending. */
module SortUtils {
  import opened JsArray
  import opened JsSort
  import opened Tasks

  /** `SortConfig['field']`: the five fields the comparator knows, and any
      other name. */
  datatype SortField = ByDueDate | ByPriority | ByStatus | ByCreatedAt | ByTitle | Other(name: string)

  datatype SortOrder = Asc | Desc

  /** `SortConfig`. `sortTasks` reads only `field` and `order`. */
  datatype SortConfig = SortConfig(
    field: SortField,
    order: SortOrder,
    priorityOrder: map<Priority, int>,
    statusOrder: map<Status, int>)

  /** The weight tables `PRIORITY_ORDER` and `STATUS_ORDER`. */
  datatype WeightTables = WeightTables(priority: Priority -> int, status: Status -> int)

  /** The values `compareValues` is handed: dates, weights and titles. */
  datatype SortKey = Time(ms: Timestamp) | Number(n: int) | Text(s: string)

  /** `compareValues(aVal, bVal)`, with `collate` for `localeCompare`. Both
      values are always of the same kind: they are the same field of two tasks. */
  function CompareValues(a: SortKey, b: SortKey, collate: (string, string) -> int): (r: int)
    requires a.Time? == b.Time? && a.Number? == b.Number?
    ensures a == b ==> r == 0
    ensures a.Time? ==> r == a.ms - b.ms
    ensures a.Number? ==> (r < 0 <==> a.n < b.n) && (r > 0 <==> a.n > b.n) && -1 <= r <= 1
    ensures a.Text? && a != b ==> r == collate(a.s, b.s)
  {
    if a == b then 0
    else if a.Time? then a.ms - b.ms
    else if a.Text? then collate(a.s, b.s)
    else if a.n < b.n then -1 else 1
  }

  /** The value of `field` that the comparator looks at. */
  function KeyOf(t: Task, field: SortField, weights: WeightTables): SortKey
    requires !field.Other?
  {
    match field
    case ByDueDate => Time(t.dueDate)
    case ByPriority => Number(weights.priority(t.priority))
    case ByStatus => Number(weights.status(t.status))
    case ByCreatedAt => Time(t.createdAt)
    case ByTitle => Text(t.title)
  }

  /** The `switch` on the field: an unknown field ties every pair. */
  function FieldComparison(field: SortField, weights: WeightTables, collate: (string, string) -> int): (Task, Task) -> int {
    (a: Task, b: Task) =>
      if field.Other? then 0
      else CompareValues(KeyOf(a, field, weights), KeyOf(b, field, weights), collate)
  }

  /** The comparator handed to `sort`: the field comparison, negated unless
      the order is ascending. */
  function TaskComparison(config: SortConfig, weights: WeightTables, collate: (string, string) -> int): (Task, Task) -> int {
    var compare := FieldComparison(config.field, weights, collate);
    (a: Task, b: Task) => if config.order == Asc then compare(a, b) else -compare(a, b)
  }

  /** `compareValues` is consistent whenever `localeCompare` is. */
  lemma CompareValuesAntisymmetric(a: SortKey, b: SortKey, collate: (string, string) -> int)
    requires a.Time? == b.Time? && a.Number? == b.Number?
    requires SignAntisymmetric(collate)
    ensures CompareValues(a, b, collate) < 0 <==> CompareValues(b, a, collate) > 0
  {
    if a.Text? && a != b {
      assert collate(a.s, b.s) < 0 <==> collate(b.s, a.s) > 0;
    }
  }

  /** The field comparison, and so the comparator in either order, is
      consistent whenever `localeCompare` is. */
  lemma TaskComparisonAntisymmetric(config: SortConfig, weights: WeightTables, collate: (string, string) -> int)
    requires SignAntisymmetric(collate)
    ensures SignAntisymmetric(FieldComparison(config.field, weights, collate))
    ensures SignAntisymmetric(TaskComparison(config, weights, collate))
  {
    var compare := FieldComparison(config.field, weights, collate);
    forall a: Task, b: Task ensures compare(a, b) < 0 <==> compare(b, a) > 0 {
      if !config.field.Other? {
        CompareValuesAntisymmetric(KeyOf(a, config.field, weights), KeyOf(b, config.field, weights), collate);
      }
    }
  }

  /** Priority and status are ordered by their weights, never by their names:
      two tasks compare exactly as their weights do. */
  lemma WeightsDecide(a: Task, b: Task, weights: WeightTables, collate: (string, string) -> int)
    ensures var byPriority := FieldComparison(ByPriority, weights, collate)(a, b);
      && (byPriority < 0 <==> weights.priority(a.priority) < weights.priority(b.priority))
      && (byPriority == 0 <==> weights.priority(a.priority) == weights.priority(b.priority))
    ensures var byStatus := FieldComparison(ByStatus, weights, collate)(a, b);
      && (byStatus < 0 <==> weights.status(a.status) < weights.status(b.status))
      && (byStatus == 0 <==> weights.status(a.status) == weights.status(b.status))
  {
    var pa, pb := KeyOf(a, ByPriority, weights), KeyOf(b, ByPriority, weights);
    assert FieldComparison(ByPriority, weights, collate)(a, b) == CompareValues(pa, pb, collate);
    var sa, sb := KeyOf(a, ByStatus, weights), KeyOf(b, ByStatus, weights);
    assert FieldComparison(ByStatus, weights, collate)(a, b) == CompareValues(sa, sb, collate);
  }

  /** Any order other than ascending is the ascending comparison negated. */
  lemma DescendingNegates(config: SortConfig, weights: WeightTables, collate: (string, string) -> int, a: Task, b: Task)
    ensures TaskComparison(config.(order := Desc), weights, collate)(a, b)
         == -TaskComparison(config.(order := Asc), weights, collate)(a, b)
  {
  }

  /** What `sortTasks` returns: a permutation of its input in which, for
      ascending order, every adjacent pair compares at most 0 by the field,
      and, for descending order, at least 0. */
  lemma SortTasksOrders(s: seq<Task>, config: SortConfig, weights: WeightTables, collate: (string, string) -> int)
    requires SignAntisymmetric(collate)
    ensures var r := InsertionSort(s, TaskComparison(config, weights, collate));
      var compare := FieldComparison(config.field, weights, collate);
      && multiset(r) == multiset(s)
      && (config.order == Asc ==> forall i | 0 <= i < |r| - 1 :: compare(r[i], r[i + 1]) <= 0)
      && (config.order == Desc ==> forall i | 0 <= i < |r| - 1 :: compare(r[i], r[i + 1]) >= 0)
  {
    var cmp := TaskComparison(config, weights, collate);
    TaskComparisonAntisymmetric(config, weights, collate);
    SortPermutes(s, cmp);
    SortSorts(s, cmp);
  }

  /** An unknown field ties every pair, and a stable sort then returns its
      input in the order given. */
  lemma UnknownFieldKeepsOrder(s: seq<Task>, config: SortConfig, weights: WeightTables, collate: (string, string) -> int)
    requires config.field.Other?
    ensures InsertionSort(s, TaskComparison(config, weights, collate)) == s
  {
    SortKeepsSortedInput(s, TaskComparison(config, weights, collate));
  }

  /** Two values each tied with a third are tied with each other, whenever
      `localeCompare` is consistent in this way too. */
  lemma CompareValuesTiesTransitive(a: SortKey, b: SortKey, c: SortKey, collate: (string, string) -> int)
    requires a.Time? == b.Time? == c.Time? && a.Number? == b.Number? == c.Number?
    requires SignAntisymmetric(collate) && TiesTransitive(collate)
    requires CompareValues(a, c, collate) == 0 && CompareValues(b, c, collate) == 0
    ensures CompareValues(a, b, collate) == 0
  {
    if a.Text? && a != b {
      if a == c {
        assert collate(b.s, a.s) == 0;
        assert !(collate(a.s, b.s) < 0) && !(collate(a.s, b.s) > 0);
      } else if b != c {
        assert collate(a.s, c.s) == 0 && collate(b.s, c.s) == 0;
      }
    }
  }

  /** The comparator's ties are transitive, in either order. */
  lemma TaskComparisonTiesTransitive(config: SortConfig, weights: WeightTables, collate: (string, string) -> int)
    requires SignAntisymmetric(collate) && TiesTransitive(collate)
    ensures TiesTransitive(TaskComparison(config, weights, collate))
  {
    var cmp := TaskComparison(config, weights, collate);
    var compare := FieldComparison(config.field, weights, collate);
    forall a: Task, b: Task, c: Task | cmp(a, c) == 0 && cmp(b, c) == 0 ensures cmp(a, b) == 0 {
      assert compare(a, c) == 0 && compare(b, c) == 0;
      if !config.field.Other? {
        CompareValuesTiesTransitive(KeyOf(a, config.field, weights), KeyOf(b, config.field, weights),
                                    KeyOf(c, config.field, weights), collate);
      }
    }
  }

  /** Tasks the comparator ties come out in the order they went in, in either
      order. */
  lemma SortTasksIsStable(s: seq<Task>, config: SortConfig, weights: WeightTables,
                          collate: (string, string) -> int, e: Task)
    requires SignAntisymmetric(collate) && TiesTransitive(collate)
    ensures var cmp := TaskComparison(config, weights, collate);
      Filter(InsertionSort(s, cmp), TiedWith(cmp, e)) == Filter(s, TiedWith(cmp, e))
  {
    TaskComparisonAntisymmetric(config, weights, collate);
    TaskComparisonTiesTransitive(config, weights, collate);
    SortIsStable(s, TaskComparison(config, weights, collate), e);
  }

  /** The elements of `s` from last to first. */
  function Reversed<T>(s: seq<T>): (r: seq<T>)
    ensures |r| == |s| && forall i | 0 <= i < |s| :: r[i] == s[|s| - 1 - i]
  {
    seq(|s|, i requires 0 <= i < |s| => s[|s| - 1 - i])
  }

  /** Because the sort is stable, reversing the ascending result is not the
      descending result: two tasks that tie keep their input order in both. */
  lemma ReversedAscendingIsNotDescending(weights: WeightTables, collate: (string, string) -> int)
    ensures var first := Task("first", "Write report", "", 0, High, Todo, [], 0, 0);
      var second := first.(id := "second");
      var config := SortConfig(ByPriority, Asc, map[], map[]);
      var ascending := InsertionSort([first, second], TaskComparison(config, weights, collate));
      var descending := InsertionSort([first, second], TaskComparison(config.(order := Desc), weights, collate));
      && ascending == [first, second]
      && descending == [first, second]
      && Reversed(ascending) != descending
  {
    var first := Task("first", "Write report", "", 0, High, Todo, [], 0, 0);
    var second := first.(id := "second");
    var config := SortConfig(ByPriority, Asc, map[], map[]);
    assert [first, second][..1] == [first];
    assert FieldComparison(ByPriority, weights, collate)(first, second) == 0;
    assert Reversed([first, second])[0] == second;
  }

  /** `sortTasks(tasks, sortConfig)`: sorts a new copy; the input array is not
      touched. */
  method SortTasks(tasks: array<Task>, config: SortConfig, weights: WeightTables, collate: (string, string) -> int)
    returns (sorted: array<Task>)
    ensures fresh(sorted)
    ensures sorted[..] == InsertionSort(tasks[..], TaskComparison(config, weights, collate))
    ensures multiset(sorted[..]) == multiset(tasks[..])
    ensures config.field.Other? ==> sorted[..] == tasks[..]
  {
    sorted := new Task[tasks.Length](i requires 0 <= i < tasks.Length reads tasks => tasks[i]);
    assert sorted[..] == tasks[..];
    SortInPlace(sorted, TaskComparison(config, weights, collate));
    SortPermutes(tasks[..], TaskComparison(config, weights, collate));
    if config.field.Other? {
      UnknownFieldKeepsOrder(tasks[..], config, weights, collate);
    }
  }
}
