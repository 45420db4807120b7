/**
 * `sanitizeData(obj)` from the form routes: a fresh object with one entry
 * per `for...in` key of `obj`, nested objects and arrays sanitised
 * recursively (an array comes back as an object keyed by index), every other
 * value passed through `sanitize`.  Assigning `result["__proto__"]` does not
 * create an own key, so that key is absent from the result.
 */
module DataSanitizer {
  import opened JsValue
  import opened Sanitizer

  const PROTO: string := "__proto__"

  /** What the loop stores under `key`: the recursive result for an object or array, else `sanitize(obj[key])`. */
  function Entry(v: Value, key: string): Value
    requires key in ForInKeys(v)
    decreases v, 0
  {
    var x := Member(v, key);
    if IsObject(x) then SanitizedData(x) else SanitizeValue(x)
  }

  /** The object `sanitizeData(v)` returns. */
  function SanitizedData(v: Value): Value
    decreases v, 1
  {
    Obj(map k | k in ForInKeys(v) && k != PROTO :: Entry(v, k))
  }

  /** The entries the loop has stored once it has visited the keys in `done`. */
  ghost function Visited(v: Value, done: set<string>): map<string, Value>
    requires done <= ForInKeys(v)
  {
    map k | k in done && k != PROTO :: Entry(v, k)
  }

  lemma VisitedStep(v: Value, done: set<string>, key: string)
    requires done <= ForInKeys(v) && key in ForInKeys(v)
    ensures key != PROTO ==> Visited(v, done + {key}) == Visited(v, done)[key := Entry(v, key)]
    ensures key == PROTO ==> Visited(v, done + {key}) == Visited(v, done)
  {
  }

  /**
   * `sanitizeData(obj)`: a `for...in` loop over the keys of `obj` that
   * recurses into nested objects; the visiting order is not modelled.
   */
  method SanitizeData(obj: Value) returns (result: Value)
    ensures result == SanitizedData(obj)
    decreases obj
  {
    var fields: map<string, Value> := map[];
    var keys := ForInKeys(obj);
    while keys != {}
      invariant keys <= ForInKeys(obj)
      invariant fields == Visited(obj, ForInKeys(obj) - keys)
      decreases keys
    {
      var key :| key in keys;
      var value := Member(obj, key);
      var r;
      if IsObject(value) {
        r := SanitizeData(value);
      } else {
        r := SanitizeValue(value);
      }
      VisitedStep(obj, ForInKeys(obj) - keys, key);
      assert ForInKeys(obj) - (keys - {key}) == (ForInKeys(obj) - keys) + {key};
      if key != PROTO {
        fields := fields[key := r];
      }
      keys := keys - {key};
    }
    result := Obj(fields);
    assert ForInKeys(obj) - keys == ForInKeys(obj);
  }

  /**
   * On a plain object: exactly its keys except `__proto__`, nested objects
   * and arrays sanitised recursively, strings escaped so that unescaping
   * gives them back, and every other value unchanged.
   */
  lemma SanitizeDataOfObject(m: map<string, Value>)
    ensures SanitizedData(Obj(m)).Obj?
    ensures SanitizedData(Obj(m)).fields.Keys == m.Keys - {PROTO}
    ensures forall k :: k in m && k != PROTO && IsObject(m[k]) ==> SanitizedData(Obj(m)).fields[k] == SanitizedData(m[k])
    ensures forall k :: k in m && k != PROTO && m[k].Str? ==>
      && SanitizedData(Obj(m)).fields[k] == Str(Sanitize(m[k].s))
      && Unescape(SanitizedData(Obj(m)).fields[k].s) == m[k].s
    ensures forall k :: k in m && k != PROTO && !IsObject(m[k]) && !m[k].Str? ==> SanitizedData(Obj(m)).fields[k] == m[k]
  {
    forall k | k in m && k != PROTO && m[k].Str? {
      UnescapeSanitize(m[k].s);
    }
  }

  /** An array comes back as an object holding element `i` under the key `"i"`, and nothing else. */
  lemma SanitizeDataOfArray(items: seq<Value>)
    ensures SanitizedData(Arr(items)).Obj?
    ensures forall i: nat :: i < |items| ==>
      && IndexKey(i) in SanitizedData(Arr(items)).fields
      && SanitizedData(Arr(items)).fields[IndexKey(i)] == Entry(Arr(items), IndexKey(i))
      && Member(Arr(items), IndexKey(i)) == items[i]
    ensures forall k :: k in SanitizedData(Arr(items)).fields ==> IndexOf(k, |items|).Some?
  {
    forall i: nat | i < |items| ensures IndexKey(i) in ForInKeys(Arr(items)) && IndexKey(i) != PROTO
      && Member(Arr(items), IndexKey(i)) == items[i]
    {
      ArrayMember(items, i);
      assert IndexKey(i)[0] != PROTO[0];
    }
  }

  /** No array anywhere, and every string anywhere escaped: what a sanitised body looks like. */
  predicate CleanTree(v: Value)
    decreases v
  {
    match v
    case Arr(_) => false
    case Str(s) => NoRawMarkup(s) && AmpersandsStartEntities(s)
    case Obj(m) => forall k :: k in m ==> CleanTree(m[k])
    case _ => true
  }

  lemma {:induction false} CleanEntry(v: Value, k: string)
    requires k in ForInKeys(v)
    ensures CleanTree(Entry(v, k))
    decreases v, 0
  {
    var x := Member(v, k);
    if IsObject(x) {
      SanitizedDataIsClean(x);
    } else if x.Str? {
      SanitizedShape(x.s);
    }
  }

  /** Whatever the input, every string in the result is escaped at every depth, and no array is left. */
  lemma {:induction false} SanitizedDataIsClean(v: Value)
    ensures CleanTree(SanitizedData(v))
    decreases v, 1
  {
    var r := SanitizedData(v).fields;
    forall k | k in r ensures CleanTree(r[k]) {
      CleanEntry(v, k);
    }
  }

  /**
   * A body that is already clean: objects (no `__proto__` key, no arrays)
   * whose strings hold none of the five special characters.
   */
  predicate Plain(v: Value)
    decreases v
  {
    match v
    case Arr(_) => false
    case Str(s) => forall j :: 0 <= j < |s| ==> s[j] !in SPECIALS
    case Obj(m) => PROTO !in m && forall k :: k in m ==> Plain(m[k])
    case _ => true
  }

  /** `sanitizeData` returns an already clean object unchanged. */
  lemma {:induction false} PlainDataUnchanged(v: Value)
    requires v.Obj? && Plain(v)
    ensures SanitizedData(v) == v
    decreases v
  {
    var m := v.fields;
    var r := SanitizedData(v).fields;
    forall k | k in m ensures r[k] == m[k] {
      assert r[k] == Entry(v, k) && Member(v, k) == m[k] && Plain(m[k]);
      if m[k].Obj? {
        PlainDataUnchanged(m[k]);
      } else if m[k].Str? {
        SanitizeFixesPlain(m[k].s);
      }
    }
  }
}
