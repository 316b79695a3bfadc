/**
 * The slice of PHP's runtime that the framework code relies on: the dynamic
 * value type, ordered arrays (lists of key/value entries), truthiness, the
 * `isset`/read/write operations on array offsets, and `array_merge` on
 * string-keyed configuration arrays.
 */
module Php {

  datatype Option<T> = None | Some(value: T)

  /** A value or the exception that was thrown instead. */
  datatype Result<T, E> = Ok(value: T) | Err(error: E)

  /** An array key: PHP arrays are keyed by integers or strings. */
  datatype Key = IntKey(n: int) | StrKey(s: string)

  /**
   * A PHP value. An array is its list of entries in iteration order; an
   * object is its class name and the entries that `foreach` visits on it.
   */
  datatype Value =
    | Null
    | Bool(b: bool)
    | Int(n: int)
    | Str(s: string)
    | Arr(entries: seq<Entry>)
    | Obj(className: string, props: seq<Entry>)

  datatype Entry = Entry(key: Key, val: Value)

  /** PHP's conversion to boolean. */
  predicate Truthy(v: Value)
  {
    match v
    case Null => false
    case Bool(b) => b
    case Int(n) => n != 0
    case Str(s) => s != "" && s != "0"
    case Arr(es) => es != []
    case Obj(_, _) => true
  }

  /** The position of the entry with key `k`, if there is one. */
  function Find(a: seq<Entry>, k: Key): (r: Option<nat>)
    ensures r.Some? ==> r.value < |a| && a[r.value].key == k
    ensures r.Some? ==> forall j :: 0 <= j < r.value ==> a[j].key != k
    ensures r.None? <==> forall j :: 0 <= j < |a| ==> a[j].key != k
  {
    if a == [] then None
    else if a[0].key == k then Some(0)
    else match Find(a[1..], k)
      case None => None
      case Some(i) => Some(i + 1)
  }

  /** `isset($a[$k])`: the key is present and its value is not null. */
  predicate Isset(a: seq<Entry>, k: Key)
  {
    match Find(a, k)
    case Some(i) => a[i].val != Null
    case None => false
  }

  /** `$a[$k]`, which reads as null when the key is absent. */
  function Get(a: seq<Entry>, k: Key): Value
  {
    match Find(a, k)
    case Some(i) => a[i].val
    case None => Null
  }

  /** `$a[$k] = $v`: an existing key keeps its position, a new key goes last. */
  function Assign(a: seq<Entry>, k: Key, v: Value): seq<Entry>
  {
    match Find(a, k)
    case Some(i) => a[i := Entry(k, v)]
    case None => a + [Entry(k, v)]
  }

  /** No key occurs twice: true of every PHP array. */
  predicate UniqueKeys(a: seq<Entry>)
  {
    forall i, j :: 0 <= i < j < |a| ==> a[i].key != a[j].key
  }

  function Keys(a: seq<Entry>): (ks: seq<Key>)
    ensures |ks| == |a| && forall i :: 0 <= i < |a| ==> ks[i] == a[i].key
  {
    if a == [] then [] else [a[0].key] + Keys(a[1..])
  }

  /**
   * `array_merge($defaults, $custom)` for string-keyed arrays: every key of
   * either survives, and a key in `custom` takes its value from there.
   */
  function ArrayMerge<V>(defaults: map<string, V>, custom: map<string, V>): (m: map<string, V>)
    ensures m.Keys == defaults.Keys + custom.Keys
    ensures forall k :: k in custom ==> m[k] == custom[k]
    ensures forall k :: k in defaults && k !in custom ==> m[k] == defaults[k]
  {
    defaults + custom
  }

  /**
   * The key that a value denotes when it is used as an array offset; arrays
   * and objects are not valid offsets.
   */
  function ToKey(v: Value): Option<Key>
  {
    match v
    case Null => Some(StrKey(""))
    case Bool(b) => Some(IntKey(if b then 1 else 0))
    case Int(n) => Some(IntKey(n))
    case Str(s) => Some(StrKey(s))
    case Arr(_) => None
    case Obj(_, _) => None
  }

  /** The value of a key as it is seen inside a `foreach`. */
  function KeyValue(k: Key): Value
  {
    match k
    case IntKey(n) => Int(n)
    case StrKey(s) => Str(s)
  }

  /**
   * Two arrays with the same keys in the same positions, the longer one
   * without `k` in its extra entries, find `k` at the same position.
   */
  lemma FindSameKeys(a: seq<Entry>, b: seq<Entry>, k: Key)
    requires |a| <= |b|
    requires forall j :: 0 <= j < |a| ==> b[j].key == a[j].key
    requires forall j :: |a| <= j < |b| ==> b[j].key != k
    ensures Find(b, k) == Find(a, k)
  {
    if Find(a, k).Some? {
      var i := Find(a, k).value;
      assert b[i].key == k;
    }
  }

  /**
   * `$a[$k] = $v` grows the array by one entry exactly when the key was
   * absent, and every earlier entry keeps its key and position.
   */
  lemma AssignPositions(a: seq<Entry>, k: Key, v: Value)
    ensures |Assign(a, k, v)| == |a| + (if Find(a, k).None? then 1 else 0)
    ensures forall j :: 0 <= j < |a| ==> Assign(a, k, v)[j].key == a[j].key
  {
  }

  /**
   * After `$a[$k] = $v`, reading `$a[$k]` gives `v` and every other key reads
   * as before.
   */
  lemma AssignShape(a: seq<Entry>, k: Key, v: Value)
    ensures Get(Assign(a, k, v), k) == v
    ensures forall k2 :: k2 != k ==> Get(Assign(a, k, v), k2) == Get(a, k2)
  {
    var r := Assign(a, k, v);
    AssignPositions(a, k, v);
    match Find(a, k)
    case Some(i) =>
      FindSameKeys(a, r, k);
      forall k2 | k2 != k ensures Get(r, k2) == Get(a, k2) {
        FindSameKeys(a, r, k2);
      }
    case None =>
      assert forall j :: 0 <= j < |a| ==> r[j] == a[j];
      var f := Find(r, k);
      assert r[|a|].key == k;
      assert f.Some? && f.value == |a|;
      forall k2 | k2 != k ensures Get(r, k2) == Get(a, k2) {
        FindSameKeys(a, r, k2);
      }
  }

  /** Writing a key keeps the keys unique, whether the key was present or not. */
  lemma AssignKeepsUnique(a: seq<Entry>, k: Key, v: Value)
    requires UniqueKeys(a)
    ensures UniqueKeys(Assign(a, k, v))
    ensures Keys(Assign(a, k, v)) == if Find(a, k).Some? then Keys(a) else Keys(a) + [k]
  {
    var r := Assign(a, k, v);
    match Find(a, k)
    case Some(i) =>
      assert |r| == |a| && forall j :: 0 <= j < |a| ==> r[j].key == a[j].key;
      assert Keys(r) == Keys(a);
    case None =>
      assert |r| == |a| + 1 && r[|a|].key == k;
      assert forall j :: 0 <= j < |a| ==> r[j] == a[j];
      assert Keys(r) == Keys(a) + [k];
  }
}
