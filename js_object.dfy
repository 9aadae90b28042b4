/**
 * The parts of JavaScript's plain-object semantics that a `reduce` into
 * `{}` relies on: property keys are strings, an object literal inherits the
 * members of Object.prototype, and `Object.values` lists the array-index
 * keys first, in ascending numeric order, then the other keys in insertion
 * order (OrdinaryOwnPropertyKeys, section 10.1.11.1 of ECMA-262).
 */
module JsObject {
  import opened Wrappers
  import opened JsText
  import opened Seqs

  /** The property key `obj[v]` reads for a string or `undefined`: `String(v)`. */
  function PropertyKey(v: Option<string>): string {
    match v
    case None => "undefined"
    case Some(s) => s
  }

  /** The members an object literal inherits from Object.prototype; each reads as a truthy value. */
  predicate IsInherited(k: string) {
    k in ["constructor", "__defineGetter__", "__defineSetter__", "hasOwnProperty", "__lookupGetter__",
          "__lookupSetter__", "isPrototypeOf", "propertyIsEnumerable", "toString", "valueOf", "__proto__",
          "toLocaleString"]
  }

  /** A canonical array index: decimal digits without a leading zero, below 2^32 - 1. */
  predicate IsArrayIndex(k: string) {
    |k| >= 1 && AllDigits(k) && (k[0] == '0' ==> |k| == 1) && DigitsValue(k) < 0xFFFF_FFFF
  }

  /** The array-index keys among `keys`, in their order. */
  function IndexKeys(keys: seq<string>): (r: seq<string>)
    ensures forall i | 0 <= i < |r| :: IsArrayIndex(r[i])
    decreases |keys|
  {
    if |keys| == 0 then []
    else IndexKeys(keys[..|keys| - 1]) + (if IsArrayIndex(keys[|keys| - 1]) then [keys[|keys| - 1]] else [])
  }

  /** The other keys among `keys`, in their order. */
  function NamedKeys(keys: seq<string>): (r: seq<string>)
    ensures forall i | 0 <= i < |r| :: !IsArrayIndex(r[i])
    decreases |keys|
  {
    if |keys| == 0 then []
    else NamedKeys(keys[..|keys| - 1]) + (if IsArrayIndex(keys[|keys| - 1]) then [] else [keys[|keys| - 1]])
  }

  /** The numeric value of an array-index key (0 for any other key). */
  function IndexValue(k: string): int {
    if AllDigits(k) then DigitsValue(k) else 0
  }

  /** The order of an object's own keys, given the order they were created in. */
  function OwnKeys(keys: seq<string>): seq<string> {
    SortBy(IndexValue, IndexKeys(keys)) + NamedKeys(keys)
  }

  /** `Object.values(obj)` for an object with the properties `props`, created in the order `keys`. */
  function ObjectValues<V>(props: map<string, V>, keys: seq<string>): (vs: seq<V>)
    requires forall k | k in keys :: k in props
    ensures |vs| == |keys|
  {
    OwnKeysFacts(keys);
    var ks := OwnKeys(keys);
    assert forall i | 0 <= i < |ks| :: ks[i] in multiset(ks);
    seq(|ks|, i requires 0 <= i < |ks| => props[ks[i]])
  }

  // ---------------------------------------------------------------- properties of the key order

  /** Splitting the keys into index keys and the others loses and adds none. */
  lemma {:induction false} PartitionFacts(keys: seq<string>)
    ensures multiset(IndexKeys(keys)) + multiset(NamedKeys(keys)) == multiset(keys)
    decreases |keys|
  {
    if |keys| > 0 {
      var init := keys[..|keys| - 1];
      PartitionFacts(init);
      assert keys == init + [keys[|keys| - 1]];
    }
  }

  /**
   * The own-key order lists exactly the created keys, none lost and none
   * added; the array-index keys come first, in ascending numeric order, and
   * the others follow.
   */
  lemma OwnKeysFacts(keys: seq<string>)
    ensures multiset(OwnKeys(keys)) == multiset(keys)
    ensures var n := |IndexKeys(keys)|;
            n <= |OwnKeys(keys)|
            && (forall i | 0 <= i < |OwnKeys(keys)| :: IsArrayIndex(OwnKeys(keys)[i]) <==> i < n)
            && Ascending(IndexValue, OwnKeys(keys)[..n])
  {
    var idx, named := IndexKeys(keys), NamedKeys(keys);
    var sorted := SortBy(IndexValue, idx);
    SortByFacts(IndexValue, idx);
    PartitionFacts(keys);
    assert |sorted| == |idx| by {
      assert |multiset(sorted)| == |multiset(idx)|;
    }
    var ks := sorted + named;
    assert ks[..|idx|] == sorted;
    forall i | 0 <= i < |sorted| ensures IsArrayIndex(sorted[i]) {
      assert sorted[i] in multiset(idx);
    }
    forall i | 0 <= i < |ks| ensures IsArrayIndex(ks[i]) <==> i < |idx| {
      if i >= |idx| {
        assert ks[i] == named[i - |idx|];
      }
    }
  }

  lemma {:induction false} PartitionWithoutIndices(keys: seq<string>)
    requires forall i | 0 <= i < |keys| :: !IsArrayIndex(keys[i])
    ensures IndexKeys(keys) == [] && NamedKeys(keys) == keys
    decreases |keys|
  {
    if |keys| > 0 {
      var init, last := keys[..|keys| - 1], keys[|keys| - 1];
      forall i | 0 <= i < |init| ensures !IsArrayIndex(init[i]) {
        assert init[i] == keys[i];
      }
      PartitionWithoutIndices(init);
      assert !IsArrayIndex(last);
      assert IndexKeys(keys) == IndexKeys(init) + [];
      assert NamedKeys(keys) == NamedKeys(init) + [last];
      assert init + [last] == keys;
    }
  }

  /** Without array-index keys, the own-key order is the insertion order. */
  lemma OwnKeysWithoutIndices(keys: seq<string>)
    requires forall i | 0 <= i < |keys| :: !IsArrayIndex(keys[i])
    ensures OwnKeys(keys) == keys
  {
    PartitionWithoutIndices(keys);
  }
}
