/**
 The JavaScript values that the Argo wizard's value converters receive as
 `unknown`, and the mutable JavaScript array the list writers edit in place.

 Arrays are objects with identity in JavaScript: a converter that is handed
 the array stored at a document path changes that very array. So an array
 value holds a reference to a `JsArray`, while strings, booleans and plain
 objects are values.
 */
module JsValues {

  /** A JavaScript value as seen through `typeof`, `Array.isArray` and `in`. */
  datatype Value =
    | Str(s: string)
    | Bool(b: bool)
    | Arr(ref: JsArray)
    | Obj(fields: map<string, Value>)
    | Null
    | Undefined
    | Other  // numbers, functions and everything else none of the converters looks into

  /** The heap objects a converter may read or change when handed `v`. */
  function Footprint(v: Value): (objs: set<object>)
  {
    if v.Arr? then {v.ref} else {}
  }

  /** The callback the converters hand to `findIndex` and `find`:
      `typeof entry === 'string' && entry.startsWith(prefix)`. */
  predicate StartsWith(v: Value, prefix: string)
  {
    v.Str? && prefix <= v.s
  }

  /** `findIndex` with that callback: the index of the first entry that is a
      string starting with `prefix`, or -1 when there is none. */
  function FirstWithPrefix(s: seq<Value>, prefix: string): (r: int)
    ensures -1 <= r < |s|
    ensures r == -1 <==> forall i :: 0 <= i < |s| ==> !StartsWith(s[i], prefix)
    ensures 0 <= r ==> StartsWith(s[r], prefix)
    ensures forall i :: 0 <= i < r ==> !StartsWith(s[i], prefix)
    decreases |s|
  {
    if |s| == 0 then -1
    else if StartsWith(s[0], prefix) then 0
    else
      var k := FirstWithPrefix(s[1..], prefix);
      if k == -1 then -1 else k + 1
  }

  /** How many entries are strings starting with `prefix`. */
  function CountWithPrefix(s: seq<Value>, prefix: string): (n: nat)
    decreases |s|
  {
    if |s| == 0 then 0
    else (if StartsWith(s[0], prefix) then 1 else 0) + CountWithPrefix(s[1..], prefix)
  }

  lemma {:induction false} CountConcat(a: seq<Value>, b: seq<Value>, prefix: string)
    ensures CountWithPrefix(a + b, prefix) == CountWithPrefix(a, prefix) + CountWithPrefix(b, prefix)
    decreases |a|
  {
    if |a| == 0 {
      assert a + b == b;
    } else {
      assert (a + b)[1..] == a[1..] + b;
      CountConcat(a[1..], b, prefix);
    }
  }

  /** The count is zero exactly when `findIndex` finds nothing. */
  lemma {:induction false} CountZeroIffNotFound(s: seq<Value>, prefix: string)
    ensures CountWithPrefix(s, prefix) == 0 <==> FirstWithPrefix(s, prefix) == -1
    decreases |s|
  {
    if |s| > 0 {
      CountZeroIffNotFound(s[1..], prefix);
    }
  }

  /** With at most one prefixed entry, any prefixed entry is the first one. */
  lemma {:induction false} AtMostOneIsFirst(s: seq<Value>, prefix: string, j: int)
    requires CountWithPrefix(s, prefix) <= 1
    requires 0 <= j < |s| && StartsWith(s[j], prefix)
    ensures FirstWithPrefix(s, prefix) == j
    decreases |s|
  {
    if j > 0 {
      if StartsWith(s[0], prefix) {
        CountZeroIffNotFound(s[1..], prefix);
        assert false;
      } else {
        AtMostOneIsFirst(s[1..], prefix, j - 1);
      }
    }
  }

  /** Replacing an entry that starts with `prefix` by another one that does
      keeps the count. */
  lemma {:induction false} CountUpdateMatching(s: seq<Value>, prefix: string, i: int, x: Value)
    requires 0 <= i < |s|
    requires StartsWith(s[i], prefix) && StartsWith(x, prefix)
    ensures CountWithPrefix(s[i := x], prefix) == CountWithPrefix(s, prefix)
  {
    var t := s[i := x];
    assert s == s[..i] + [s[i]] + s[i + 1..];
    assert t == s[..i] + [x] + s[i + 1..];
    CountConcat(s[..i] + [s[i]], s[i + 1..], prefix);
    CountConcat(s[..i], [s[i]], prefix);
    CountConcat(s[..i] + [x], s[i + 1..], prefix);
    CountConcat(s[..i], [x], prefix);
  }

  /** A JavaScript array object: the list the Argo wizard stores at a document
      path (such as `spec.syncPolicy.syncOptions`) and edits in place. */
  class JsArray {
    var elems: seq<Value>

    /** The array literal `[]`. */
    constructor ()
      ensures elems == []
    {
      elems := [];
    }

    /** `array.push(v)` */
    method Push(v: Value)
      modifies this
      ensures elems == old(elems) + [v]
    {
      elems := elems + [v];
    }

    /** `array[i] = v` for an index inside the array. */
    method SetAt(i: int, v: Value)
      requires 0 <= i < |elems|
      modifies this
      ensures elems == old(elems)[i := v]
    {
      elems := elems[i := v];
    }

    /** `array.splice(i, 1)` for an index inside the array. */
    method SpliceOne(i: int)
      requires 0 <= i < |elems|
      modifies this
      ensures elems == old(elems)[..i] + old(elems)[i + 1..]
    {
      elems := elems[..i] + elems[i + 1..];
    }

    /** `array.findIndex((entry) => typeof entry === 'string' && entry.startsWith(prefix))`,
        which visits the entries from the front and stops at the first match. */
    method FindIndexWithPrefix(prefix: string) returns (index: int)
      ensures index == FirstWithPrefix(elems, prefix)
    {
      var k := 0;
      while k < |elems|
        invariant 0 <= k <= |elems|
        invariant forall j :: 0 <= j < k ==> !StartsWith(elems[j], prefix)
      {
        if StartsWith(elems[k], prefix) {
          return k;
        }
        k := k + 1;
      }
      return -1;
    }
  }
}
