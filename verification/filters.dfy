/**
 * Filter strategies: filter operations on a key path, their translation into
 * query items for a server, and their evaluation on the client.
 */
module Filters {
  import opened Wrappers
  import opened Elements
  import opened Services

  /** A single filter operation on the value a key path reads. */
  datatype Operation =
    | Lte(path: KeyPath, value: Value)
    | Gte(path: KeyPath, value: Value)
    | Exists(path: KeyPath, value: Value)

  /**
   * Where filtering happens. A server filter may carry its own query-item
   * translator; whether its items were already appended is tracked by the
   * binding that owns it.
   */
  datatype FilterStrategy =
    | ServerFilter(operations: seq<Operation>, translator: Option<FilterTranslator>)
    | ClientFilter(operations: seq<Operation>)
    | NoFilter

  /** `Operation.description`: the operation's wire name. */
  function OperationName(op: Operation): (name: string)
    ensures op.Gte? ==> name == "gte"
    ensures op.Lte? ==> name == "lte"
    ensures op.Exists? ==> name == "exists"
  {
    match op
    case Gte(_, _) => "gte"
    case Lte(_, _) => "lte"
    case Exists(_, _) => "exists"
  }

  /** The query item an operation becomes under `from`: (property name, operation name, value). */
  function OperationItem(op: Operation, from: FilterTranslator): QueryItem {
    from(op.path.name, OperationName(op), Describe(op.value))
  }

  /** `Filter.applyServerStrategy(from:)`: one query item per operation, in operation order. */
  function ApplyServerStrategy(ops: seq<Operation>, from: FilterTranslator): (items: seq<QueryItem>)
    ensures |items| == |ops|
    ensures forall i :: 0 <= i < |ops| ==>
      items[i] == from(ops[i].path.name, OperationName(ops[i]), Describe(ops[i].value))
  {
    if |ops| == 0 then [] else [OperationItem(ops[0], from)] + ApplyServerStrategy(ops[1..], from)
  }

  /** `defaultFilterServerStrategy`: the left-hand-side bracket form `property[operation]=value`. */
  function DefaultFilterServerStrategy(property: string, operation: string, value: string): QueryItem {
    QueryItem(property + "[" + operation + "]", value)
  }

  /** The position of the last `c` in `s`, if any. */
  function LastIndexOf(s: string, c: char): (r: Option<nat>)
    ensures r.Some? ==> r.value < |s| && s[r.value] == c
    ensures r.Some? ==> forall j :: r.value < j < |s| ==> s[j] != c
    ensures r.None? ==> c !in s
  {
    if |s| == 0 then None
    else if s[|s| - 1] == c then Some(|s| - 1)
    else LastIndexOf(s[..|s| - 1], c)
  }

  /** How a server reads a bracket-form name back into (property, operation). */
  function SplitBracketName(name: string): Option<(string, string)> {
    if |name| == 0 || name[|name| - 1] != ']' then None
    else
      var inner := name[..|name| - 1];
      match LastIndexOf(inner, '[')
      case None => None
      case Some(k) => Some((inner[..k], inner[k + 1..]))
  }

  /** The default encoding loses nothing: property and operation can be read back from the name. */
  lemma DefaultFilterNameRoundTrip(property: string, operation: string, value: string)
    requires '[' !in operation
    ensures SplitBracketName(DefaultFilterServerStrategy(property, operation, value).name)
         == Some((property, operation))
  {
    var name := DefaultFilterServerStrategy(property, operation, value).name;
    var inner := name[..|name| - 1];
    assert inner == property + "[" + operation;
    var k := |property|;
    assert inner[k] == '[';
    assert forall j :: k < j < |inner| ==> inner[j] == operation[j - k - 1];
    var r := LastIndexOf(inner, '[');
    assert r == Some(k);
    assert inner[..k] == property;
    assert inner[k + 1..] == operation;
  }

  /** Whether `e` passes `op`, using Swift's `>=` (not `<`), `<=` (not `>`) and `==`. */
  predicate Holds(op: Operation, e: Element) {
    match op
    case Gte(path, v) => !Less(path.get(e), v)
    case Lte(path, v) => !Less(v, path.get(e))
    case Exists(path, v) => path.get(e) == v
  }

  /** Whether `e` passes every operation. */
  predicate SatisfiesAll(e: Element, ops: seq<Operation>) {
    forall i :: 0 <= i < |ops| ==> Holds(ops[i], e)
  }

  /** `Array.filter` with one operation. */
  function Keep(xs: seq<Element>, op: Operation): seq<Element> {
    if |xs| == 0 then []
    else (if Holds(op, xs[0]) then [xs[0]] else []) + Keep(xs[1..], op)
  }

  /** The client pass as the source runs it: one `filter` per operation, in order. */
  function ApplyClientFilter(xs: seq<Element>, ops: seq<Operation>): seq<Element>
    decreases |ops|
  {
    if |ops| == 0 then xs else ApplyClientFilter(Keep(xs, ops[0]), ops[1..])
  }

  /** Reference definition: one pass keeping the records that pass every operation. */
  function KeepAll(xs: seq<Element>, ops: seq<Operation>): (r: seq<Element>)
    ensures |r| <= |xs|
  {
    if |xs| == 0 then []
    else (if SatisfiesAll(xs[0], ops) then [xs[0]] else []) + KeepAll(xs[1..], ops)
  }

  /** The reference definition keeps each passing record as often as it occurs, and nothing else. */
  lemma {:induction false} KeepAllMeaning(xs: seq<Element>, ops: seq<Operation>)
    ensures forall e :: multiset(KeepAll(xs, ops))[e] == if SatisfiesAll(e, ops) then multiset(xs)[e] else 0
    decreases |xs|
  {
    if |xs| > 0 {
      KeepAllMeaning(xs[1..], ops);
      assert xs == [xs[0]] + xs[1..];
    }
  }

  /** Keeping preserves relative order: it distributes over concatenation. */
  lemma {:induction false} KeepAllAppend(a: seq<Element>, b: seq<Element>, ops: seq<Operation>)
    ensures KeepAll(a + b, ops) == KeepAll(a, ops) + KeepAll(b, ops)
    decreases |a|
  {
    if |a| > 0 {
      assert (a + b)[1..] == a[1..] + b;
      KeepAllAppend(a[1..], b, ops);
    } else {
      assert a + b == b;
    }
  }

  lemma {:induction false} KeepAllEmpty(xs: seq<Element>)
    ensures KeepAll(xs, []) == xs
    decreases |xs|
  {
    if |xs| > 0 {
      KeepAllEmpty(xs[1..]);
    }
  }

  lemma SatisfiesAllCons(e: Element, op: Operation, ops: seq<Operation>)
    ensures SatisfiesAll(e, [op] + ops) <==> Holds(op, e) && SatisfiesAll(e, ops)
  {
    var all := [op] + ops;
    if Holds(op, e) && SatisfiesAll(e, ops) {
      forall i | 0 <= i < |all| ensures Holds(all[i], e) {
        if i > 0 {
          assert all[i] == ops[i - 1];
        }
      }
    }
    if SatisfiesAll(e, all) {
      assert all[0] == op;
      forall i | 0 <= i < |ops| ensures Holds(ops[i], e) {
        assert all[i + 1] == ops[i];
      }
    }
  }

  lemma {:induction false} KeepThenKeepAll(xs: seq<Element>, op: Operation, ops: seq<Operation>)
    ensures KeepAll(Keep(xs, op), ops) == KeepAll(xs, [op] + ops)
    decreases |xs|
  {
    if |xs| > 0 {
      KeepThenKeepAll(xs[1..], op, ops);
      var head := if Holds(op, xs[0]) then [xs[0]] else [];
      KeepAllAppend(head, Keep(xs[1..], op), ops);
      SatisfiesAllCons(xs[0], op, ops);
    }
  }

  /**
   * Running the operations one after another keeps exactly the records that
   * pass all of them (logical AND), in their original order.
   */
  lemma {:induction false} ClientFilterIsConjunction(xs: seq<Element>, ops: seq<Operation>)
    ensures ApplyClientFilter(xs, ops) == KeepAll(xs, ops)
    decreases |ops|
  {
    if |ops| == 0 {
      KeepAllEmpty(xs);
    } else {
      ClientFilterIsConjunction(Keep(xs, ops[0]), ops[1..]);
      KeepThenKeepAll(xs, ops[0], ops[1..]);
      assert [ops[0]] + ops[1..] == ops;
    }
  }

  /** What the client pass keeps, with multiplicities, and that it keeps their order. */
  lemma ClientFilterMeaning(xs: seq<Element>, ys: seq<Element>, ops: seq<Operation>)
    ensures forall e :: multiset(ApplyClientFilter(xs, ops))[e] ==
                        if SatisfiesAll(e, ops) then multiset(xs)[e] else 0
    ensures forall e :: e in ApplyClientFilter(xs, ops) <==> e in xs && SatisfiesAll(e, ops)
    ensures ApplyClientFilter(xs + ys, ops) == ApplyClientFilter(xs, ops) + ApplyClientFilter(ys, ops)
  {
    ClientFilterIsConjunction(xs, ops);
    ClientFilterIsConjunction(ys, ops);
    ClientFilterIsConjunction(xs + ys, ops);
    KeepAllAppend(xs, ys, ops);
    KeepAllMeaning(xs, ops);
    forall e ensures e in ApplyClientFilter(xs, ops) <==> e in xs && SatisfiesAll(e, ops) {
      assert e in ApplyClientFilter(xs, ops) <==> multiset(ApplyClientFilter(xs, ops))[e] > 0;
      assert e in xs <==> multiset(xs)[e] > 0;
    }
  }
}
