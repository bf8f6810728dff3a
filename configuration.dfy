/**
 * A parsed configuration: the plain object a tokenizer returns, seen as its
 * own-key iteration order, that is a sequence of (key, value) pairs with
 * pairwise distinct keys.
 */
module Configuration {

  /**
   * A parsed value. Numbers are modelled as reals plus NaN; an object or an
   * array is modelled by its identity only, because strict equality compares
   * composite values by reference and never looks inside them.
   */
  datatype Value =
    | Null
    | Bool(b: bool)
    | Num(x: real)
    | NaN
    | Str(s: string)
    | Composite(ref: nat)

  /** JavaScript's `===` on parsed values. */
  predicate StrictEquals(a: Value, b: Value) {
    match (a, b)
    case (Null, Null) => true
    case (Bool(x), Bool(y)) => x == y
    case (Num(x), Num(y)) => x == y
    case (Str(x), Str(y)) => x == y
    case (Composite(x), Composite(y)) => x == y
    case _ => false
  }

  /** `===` is symmetric, and reflexive on every value except NaN. */
  lemma StrictEqualsProperties(a: Value, b: Value)
    ensures StrictEquals(a, b) <==> StrictEquals(b, a)
    ensures StrictEquals(a, a) <==> a != NaN
    ensures StrictEquals(a, b) ==> a == b
  {
  }

  /** The JavaScript type a value belongs to; NaN is a number. */
  datatype Kind = NullKind | BooleanKind | NumberKind | StringKind | ObjectKind

  function KindOf(v: Value): Kind {
    match v
    case Null => NullKind
    case Bool(_) => BooleanKind
    case Num(_) => NumberKind
    case NaN => NumberKind
    case Str(_) => StringKind
    case Composite(_) => ObjectKind
  }

  /** Values of different kinds, and composites of different identity, are never `===`. */
  lemma StrictEqualsDistinguishes(a: Value, b: Value)
    requires || (a.Composite? && b.Composite? && a.ref != b.ref)
             || KindOf(a) != KindOf(b)
    ensures !StrictEquals(a, b)
  {
  }

  predicate UniqueKeys(c: seq<(string, Value)>) {
    forall i, j :: 0 <= i < j < |c| ==> c[i].0 != c[j].0
  }

  type Config = c: seq<(string, Value)> | UniqueKeys(c)

  /** JavaScript's `key in object` for an own key. */
  predicate HasKey(c: seq<(string, Value)>, k: string) {
    exists i | 0 <= i < |c| :: c[i].0 == k
  }

  /** JavaScript's `object[key]` for a key the object has. */
  function Get(c: seq<(string, Value)>, k: string): (v: Value)
    requires HasKey(c, k)
    ensures (k, v) in c
  {
    var last := c[|c| - 1];
    if last.0 == k then last.1
    else
      Get(c[..|c| - 1], k)
  }

  /** In a configuration with unique keys a key determines its value. */
  lemma GetAt(c: Config, i: nat)
    requires i < |c|
    ensures HasKey(c, c[i].0) && Get(c, c[i].0) == c[i].1
  {
    var v := Get(c, c[i].0);
    var j :| 0 <= j < |c| && c[j] == (c[i].0, v);
  }

  /** `(k, v) in c` holds exactly when `c` has key `k` with value `v`. */
  lemma PairInConfig(c: Config, k: string, v: Value)
    ensures (k, v) in c <==> HasKey(c, k) && Get(c, k) == v
  {
    if (k, v) in c {
      var i :| 0 <= i < |c| && c[i] == (k, v);
      GetAt(c, i);
    }
  }
}
