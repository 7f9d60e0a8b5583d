/**
 * Sort strategies: a direction and a key path, translated into a `sort_by`
 * query item for a server or applied on the client.
 */
module Sorters {
  import opened Wrappers
  import opened Elements
  import opened Services
  import opened KeyPathSort

  datatype Direction = Asc | Desc

  /** A sorter. Whether its item was already appended is tracked by the binding that owns it. */
  datatype Sorter = Sorter(direction: Direction, path: KeyPath)

  datatype SortStrategy =
    | ServerSort(sorter: Sorter, translator: Option<SortTranslator>)
    | ClientSort(sorter: Sorter)
    | NoSort

  /** `Sorter.init`: the direction is ascending unless stated otherwise. */
  function NewSorter(path: KeyPath, direction: Direction := Asc): Sorter {
    Sorter(direction, path)
  }

  /** `Sorter.applyServerStrategy(from:)`: the operation name first, then the property name. */
  function ApplyServerStrategy(sorter: Sorter, from: SortTranslator): (item: QueryItem)
    ensures sorter.direction == Asc ==> item == from("asc", sorter.path.name)
    ensures sorter.direction == Desc ==> item == from("desc", sorter.path.name)
  {
    match sorter.direction
    case Asc => from("asc", sorter.path.name)
    case Desc => from("desc", sorter.path.name)
  }

  /** `defaultSortServerStrategy`: `sort_by=+property` for "asc", `sort_by=-property` for anything else. */
  function DefaultSortServerStrategy(operation: string, property: string): QueryItem {
    if operation == "asc" then QueryItem("sort_by", "+" + property)
    else QueryItem("sort_by", "-" + property)
  }

  /** How a server reads a `sort_by` item back into a direction and a property name. */
  function ParseSortBy(item: QueryItem): Option<(Direction, string)> {
    if item.name != "sort_by" || |item.value| == 0 then None
    else if item.value[0] == '+' then Some((Asc, item.value[1..]))
    else if item.value[0] == '-' then Some((Desc, item.value[1..]))
    else None
  }

  /** The default `sort_by` item carries the sorter's direction and property name unchanged. */
  lemma DefaultSortRoundTrip(sorter: Sorter)
    ensures ParseSortBy(ApplyServerStrategy(sorter, DefaultSortServerStrategy))
         == Some((sorter.direction, sorter.path.name))
  {
    var item := ApplyServerStrategy(sorter, DefaultSortServerStrategy);
    assert item.value[1..] == sorter.path.name;
  }

  /** Every operation name other than "asc" is read as descending by the default translator. */
  lemma DefaultSortOtherIsDescending(operation: string, property: string)
    requires operation != "asc"
    ensures ParseSortBy(DefaultSortServerStrategy(operation, property)) == Some((Desc, property))
  {
    var item := DefaultSortServerStrategy(operation, property);
    assert item.value[1..] == property;
  }

  /** `.asc` sorts with `<`, `.desc` with `>`. */
  function ComparatorFor(d: Direction): Comparator {
    match d
    case Asc => LessThan
    case Desc => GreaterThan
  }

  /** The client pass: `sorted(on:by:)` with `<` for `.asc` and `>` for `.desc`. */
  function ApplyClientSort(xs: seq<Element>, sorter: Sorter): (r: seq<Element>)
    ensures |r| == |xs|
  {
    SortedOn(xs, sorter.path.get, ComparatorFor(sorter.direction))
  }

  /** The client pass rearranges the records so that their keys ascend (`.asc`) or descend (`.desc`). */
  lemma ClientSortMeaning(xs: seq<Element>, sorter: Sorter)
    ensures multiset(ApplyClientSort(xs, sorter)) == multiset(xs)
    ensures Ordered(ApplyClientSort(xs, sorter), sorter.path.get, ComparatorFor(sorter.direction))
    ensures sorter.direction == Asc ==> var r := ApplyClientSort(xs, sorter);
      forall i, j :: 0 <= i < j < |r| ==> LessOrEqual(sorter.path.get(r[i]), sorter.path.get(r[j]))
    ensures sorter.direction == Desc ==> var r := ApplyClientSort(xs, sorter);
      forall i, j :: 0 <= i < j < |r| ==> LessOrEqual(sorter.path.get(r[j]), sorter.path.get(r[i]))
  {
    SortedOnSorts(xs, sorter.path.get, ComparatorFor(sorter.direction));
    OrderedMeaning(ApplyClientSort(xs, sorter), sorter.path.get, ComparatorFor(sorter.direction));
  }
}
