/**
 * The records the binding synchronises, and the comparable values that
 * filters and sorters read from them.
 */
module Elements {
  import opened Wrappers
  import Decimal

  /**
   * A comparable, printable property value (Swift's `Filterable` / `Sortable`).
   * Every filter or sorter reads values of one kind; both kinds share one
   * total order so that a model of mixed values is still well-defined.
   */
  datatype Value = Num(n: int) | Text(s: string)

  /** Strict lexicographic order on strings, comparing code points. */
  predicate TextLess(a: string, b: string)
    decreases |a|
  {
    if |b| == 0 then false
    else if |a| == 0 then true
    else if a[0] != b[0] then a[0] < b[0]
    else TextLess(a[1..], b[1..])
  }

  /** The order on property values: numbers compare numerically, texts by code point. Swift orders `String`s by canonical equivalence, which this does not model. */
  predicate Less(a: Value, b: Value) {
    match (a, b)
    case (Num(x), Num(y)) => x < y
    case (Text(x), Text(y)) => TextLess(x, y)
    case (Num(_), Text(_)) => true
    case (Text(_), Num(_)) => false
  }

  /** Swift's `<=` on comparable values. */
  predicate LessOrEqual(a: Value, b: Value) {
    a == b || Less(a, b)
  }

  /** `CustomStringConvertible.description` of a value. */
  function Describe(v: Value): string {
    match v
    case Num(n) => Decimal.IntToString(n)
    case Text(s) => s
  }

  /** An application record: its server identity (`nil` until assigned) and its stored properties. */
  datatype Element = Element(id: Option<int>, attributes: map<string, Value>)

  /**
   * A key path into `Element`: the property's wire name together with its
   * accessor. The name is "" when the property could not be resolved.
   */
  datatype KeyPath = KeyPath(name: string, get: Element -> Value)

  lemma {:induction false} TextLessIrreflexive(a: string)
    ensures !TextLess(a, a)
    decreases |a|
  {
    if |a| > 0 {
      TextLessIrreflexive(a[1..]);
    }
  }

  lemma {:induction false} TextLessTransitive(a: string, b: string, c: string)
    requires TextLess(a, b) && TextLess(b, c)
    ensures TextLess(a, c)
    decreases |a|
  {
    if |a| > 0 && a[0] == b[0] && b[0] == c[0] {
      TextLessTransitive(a[1..], b[1..], c[1..]);
    }
  }

  lemma {:induction false} TextLessConnected(a: string, b: string)
    requires a != b
    ensures TextLess(a, b) || TextLess(b, a)
    decreases |a|
  {
    if |a| > 0 && |b| > 0 && a[0] == b[0] {
      assert a == [a[0]] + a[1..] && b == [b[0]] + b[1..];
      TextLessConnected(a[1..], b[1..]);
    }
  }

  /** `Less` is a strict total order: irreflexive, transitive and connected. */
  lemma LessIsStrictTotalOrder(a: Value, b: Value, c: Value)
    ensures !Less(a, a)
    ensures Less(a, b) && Less(b, c) ==> Less(a, c)
    ensures a != b ==> Less(a, b) || Less(b, a)
  {
    if a.Text? {
      TextLessIrreflexive(a.s);
    }
    if a.Text? && b.Text? && c.Text? && Less(a, b) && Less(b, c) {
      TextLessTransitive(a.s, b.s, c.s);
    }
    if a.Text? && b.Text? && a != b {
      TextLessConnected(a.s, b.s);
    }
  }

  /** `Less` is asymmetric: no two values precede each other. */
  lemma LessAsymmetric(a: Value, b: Value)
    ensures !(Less(a, b) && Less(b, a))
  {
    LessIsStrictTotalOrder(a, b, a);
  }
}
