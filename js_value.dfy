/**
 * JavaScript values as the Express server sees them: a request body parsed
 * by `express.json()`, plus `undefined` for a property that is not there.
 * An object is a map from its own keys to their values; the order in which
 * `for...in` visits keys is not part of the model.
 */
module JsValue {
  import opened SeqUtil

  datatype Value =
    | Undefined
    | Null
    | Bool(b: bool)
    | Num(n: real)
    | Str(s: string)
    | Arr(items: seq<Value>)
    | Obj(fields: map<string, Value>)

  /** Reading a property of these values throws a `TypeError`. */
  predicate Nullish(v: Value) {
    v.Undefined? || v.Null?
  }

  /** `typeof v === "object" && v !== null`: arrays and plain objects. */
  predicate IsObject(v: Value) {
    v.Arr? || v.Obj?
  }

  function DigitChar(d: nat): (c: char)
    requires d < 10
    ensures '0' <= c <= '9'
  {
    ['0', '1', '2', '3', '4', '5', '6', '7', '8', '9'][d]
  }

  /** The canonical decimal spelling of an array index, the key `for...in` yields for it. */
  function IndexKey(n: nat): (k: string)
    ensures k != [] && (n < 10 <==> |k| == 1)
    ensures forall j :: 0 <= j < |k| ==> '0' <= k[j] <= '9'
  {
    if n < 10 then [DigitChar(n)] else IndexKey(n / 10) + [DigitChar(n % 10)]
  }

  lemma DigitCharInjective(a: nat, b: nat)
    requires a < 10 && b < 10 && DigitChar(a) == DigitChar(b)
    ensures a == b
  {
  }

  /** Distinct indices have distinct keys. */
  lemma {:induction false} IndexKeyInjective(a: nat, b: nat)
    requires IndexKey(a) == IndexKey(b)
    ensures a == b
  {
    var ka, kb := IndexKey(a), IndexKey(b);
    if a < 10 || b < 10 {
      if a < 10 && b < 10 {
        DigitCharInjective(a, b);
      }
    } else {
      assert ka[|ka| - 1] == DigitChar(a % 10) && kb[|kb| - 1] == DigitChar(b % 10);
      DigitCharInjective(a % 10, b % 10);
      assert ka[..|ka| - 1] == IndexKey(a / 10) && kb[..|kb| - 1] == IndexKey(b / 10);
      IndexKeyInjective(a / 10, b / 10);
    }
  }

  lemma IndexKeysInjective()
    ensures forall a: nat, b: nat :: IndexKey(a) == IndexKey(b) ==> a == b
  {
    forall a: nat, b: nat | IndexKey(a) == IndexKey(b) ensures a == b {
      IndexKeyInjective(a, b);
    }
  }

  /** The index below `n` whose key is `k`, if there is one. */
  function IndexOf(k: string, n: nat): (r: Option<nat>)
    ensures r.Some? ==> r.value < n && IndexKey(r.value) == k
    ensures r.None? ==> forall i: nat :: i < n ==> IndexKey(i) != k
  {
    if n == 0 then None
    else if IndexKey(n - 1) == k then Some(n - 1)
    else IndexOf(k, n - 1)
  }

  lemma IndexOfKey(i: nat, n: nat)
    requires i < n
    ensures IndexOf(IndexKey(i), n) == Some(i)
  {
    IndexKeysInjective();
  }

  /** The keys of the indices below `n`. */
  function IndexKeys(n: nat): (r: set<string>)
    ensures forall k :: k in r <==> IndexOf(k, n).Some?
  {
    if n == 0 then {} else IndexKeys(n - 1) + {IndexKey(n - 1)}
  }

  /** The keys `for (const key in v)` visits: own enumerable properties. */
  function ForInKeys(v: Value): set<string> {
    match v
    case Obj(m) => m.Keys
    case Arr(items) => IndexKeys(|items|)
    case Str(s) => IndexKeys(|s|)
    case _ => {}
  }

  /** `v[k]` for a key of `ForInKeys(v)`, and `undefined` for any other key. */
  function Member(v: Value, k: string): Value {
    match v
    case Obj(m) => if k in m then m[k] else Undefined
    case Arr(items) =>
      (match IndexOf(k, |items|)
       case Some(i) => items[i]
       case None => Undefined)
    case Str(s) =>
      (match IndexOf(k, |s|)
       case Some(i) => Str([s[i]])
       case None => Undefined)
    case _ => Undefined
  }

  /**
   * `v.k` on a value that is not `null` or `undefined`: an own property, or
   * the `length` of an array or string, else `undefined`.  Inherited
   * properties other than `length` are not modelled.
   */
  function Prop(v: Value, k: string): Value
    requires !Nullish(v)
  {
    if k == "length" && v.Arr? then Num(|v.items| as real)
    else if k == "length" && v.Str? then Num(|v.s| as real)
    else Member(v, k)
  }

  /** The key of each array index is a `for...in` key, and `Member` reads that element. */
  lemma ArrayMember(items: seq<Value>, i: nat)
    requires i < |items|
    ensures IndexKey(i) in ForInKeys(Arr(items))
    ensures Member(Arr(items), IndexKey(i)) == items[i]
  {
    IndexOfKey(i, |items|);
  }
}
