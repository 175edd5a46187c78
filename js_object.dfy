/**
 * A plain JavaScript object used as a dictionary from strings to
 * non-negative integers (the script's `trainingData`). Property creation
 * order is kept, because `for...in` and `Object.keys` enumerate in an
 * order that depends on it: first the keys that are array indices, in
 * ascending numeric order, then every other key in creation order
 * (OrdinaryOwnPropertyKeys, section 10.1.11.1 of ECMA-262).
 */
module JsObject {
  import opened JsStrings

  datatype Obj = Obj(keys: seq<string>, vals: map<string, nat>)

  /** Keys are listed once each, in creation order, and are exactly the map's keys. */
  ghost predicate WellFormed(o: Obj) {
    && NoDup(o.keys)
    && (forall k :: k in o.keys <==> k in o.vals)
  }

  const Empty := Obj([], map[])

  /**
   * The properties every object literal inherits from `Object.prototype`
   * (section 20.1.3 of ECMA-262 and its Annex B.2.2). Each is a function or
   * an object, so reading one gives a truthy value that compares as NaN.
   */
  const InheritedNames: set<string> := {
    "constructor", "hasOwnProperty", "isPrototypeOf", "propertyIsEnumerable",
    "toLocaleString", "toString", "valueOf", "__proto__",
    "__defineGetter__", "__defineSetter__", "__lookupGetter__", "__lookupSetter__"}

  /** `o[k]` is truthy: a non-zero own count, or, without an own property, an inherited one. */
  predicate IsTruthyProp(o: Obj, k: string) {
    if k in o.vals then o.vals[k] != 0 else k in InheritedNames
  }

  /** `o[k] < bound`: an own count below `bound`; `undefined` and the inherited values compare as NaN. */
  predicate PropLess(o: Obj, k: string, bound: nat) {
    k in o.vals && o.vals[k] < bound
  }

  /** `o[k] || 0` for an own key `k`, the only keys the status line reads. */
  function Count(o: Obj, k: string): nat {
    if k in o.vals then o.vals[k] else 0
  }

  /** `o[k] = v`: overwrites an existing property in place, or creates a new last one. */
  function Put(o: Obj, k: string, v: nat): (r: Obj)
    ensures r.vals == o.vals[k := v]
    ensures k in o.vals ==> r.keys == o.keys
    ensures k !in o.vals ==> r.keys == o.keys + [k]
    ensures WellFormed(o) ==> WellFormed(r)
  {
    if k in o.vals then Obj(o.keys, o.vals[k := v])
    else
      var r := Obj(o.keys + [k], o.vals[k := v]);
      assert WellFormed(o) ==> k !in o.keys;
      r
  }

  // ------------------------------------------------ enumeration order

  /**
   * A canonical numeric string whose value is below 2^32 - 1: the keys
   * an ordinary object enumerates before all others.
   */
  predicate IsArrayIndex(k: string) {
    && k != [] && AllDigits(k)
    && (k[0] == '0' ==> |k| == 1)
    && ParseDecimal(k) < 0xFFFF_FFFF
  }

  /**
   * The definition of section 6.1.7 of ECMA-262: a key is an array index
   * when it is the canonical decimal rendering of a number below 2^32 - 1.
   */
  lemma IsArrayIndexIsCanonical(k: string)
    ensures IsArrayIndex(k) <==> exists n: nat :: n < 0xFFFF_FFFF && k == DecimalString(n)
  {
    if IsArrayIndex(k) {
      CanonicalDecimalRoundTrip(k);
      assert k == DecimalString(ParseDecimal(k));
    }
    if n: nat :| n < 0xFFFF_FFFF && k == DecimalString(n) {
      DecimalRoundTrip(n);
    }
  }

  /** The keys of `ks` that are (`want`) or are not (`!want`) array indices, in order. */
  function Select(ks: seq<string>, want: bool): (r: seq<string>)
    ensures forall k :: k in r <==> k in ks && IsArrayIndex(k) == want
  {
    if ks == [] then []
    else if IsArrayIndex(ks[0]) == want then [ks[0]] + Select(ks[1..], want)
    else Select(ks[1..], want)
  }

  /** The two selections split the keys between them. */
  lemma {:induction false} SelectPartitions(ks: seq<string>)
    ensures multiset(Select(ks, true)) + multiset(Select(ks, false)) == multiset(ks)
  {
    if ks != [] {
      SelectPartitions(ks[1..]);
      assert ks == [ks[0]] + ks[1..];
    }
  }

  predicate SortedByIndex(ks: seq<string>) {
    forall i, j :: 0 <= i < j < |ks| ==> ParseDecimal(ks[i]) <= ParseDecimal(ks[j])
  }

  function Insert(k: string, ks: seq<string>): (r: seq<string>)
    ensures multiset(r) == multiset(ks) + multiset{k}
  {
    if ks == [] || ParseDecimal(k) <= ParseDecimal(ks[0]) then [k] + ks
    else
      assert ks == [ks[0]] + ks[1..];
      [ks[0]] + Insert(k, ks[1..])
  }

  /** Inserting into a sorted sequence keeps it sorted. */
  lemma {:induction false} InsertSorted(k: string, ks: seq<string>)
    requires SortedByIndex(ks)
    ensures SortedByIndex(Insert(k, ks))
  {
    if ks != [] && ParseDecimal(k) > ParseDecimal(ks[0]) {
      var rest := Insert(k, ks[1..]);
      InsertSorted(k, ks[1..]);
      var r := [ks[0]] + rest;
      assert Insert(k, ks) == r;
      forall j | 0 <= j < |rest| ensures ParseDecimal(ks[0]) <= ParseDecimal(rest[j]) {
        InsertMember(k, ks[1..], rest[j]);
        if rest[j] != k {
          var m :| 0 <= m < |ks[1..]| && ks[1..][m] == rest[j];
          assert ks[m + 1] == rest[j];
        }
      }
      forall i, j | 0 <= i < j < |r| ensures ParseDecimal(r[i]) <= ParseDecimal(r[j]) {
        assert r[j] == rest[j - 1];
        if i > 0 {
          assert r[i] == rest[i - 1];
        }
      }
    }
  }

  lemma InsertMember(k: string, ks: seq<string>, x: string)
    requires x in Insert(k, ks)
    ensures x == k || x in ks
  {
    assert x in multiset(Insert(k, ks));
  }

  /** The array-index keys in ascending numeric order. */
  function SortByIndex(ks: seq<string>): (r: seq<string>)
    ensures SortedByIndex(r)
    ensures multiset(r) == multiset(ks)
  {
    if ks == [] then []
    else
      assert ks == [ks[0]] + ks[1..];
      InsertSorted(ks[0], SortByIndex(ks[1..]));
      Insert(ks[0], SortByIndex(ks[1..]))
  }

  /** The order in which `for...in` and `Object.keys` visit a plain object created with keys `ks`. */
  function ForInOrder(ks: seq<string>): (r: seq<string>)
    ensures multiset(r) == multiset(ks)
  {
    SelectPartitions(ks);
    SortByIndex(Select(ks, true)) + Select(ks, false)
  }

  /** Array-index keys come first, in ascending numeric order; the other keys follow. */
  lemma ForInOrderIndexKeysFirst(ks: seq<string>)
    ensures var r := ForInOrder(ks); var n := |Select(ks, true)|;
      && n <= |r|
      && SortedByIndex(r[..n])
      && (forall i :: 0 <= i < n ==> IsArrayIndex(r[i]))
      && (forall i :: n <= i < |r| ==> !IsArrayIndex(r[i]))
  {
    var sel := Select(ks, true);
    var idx := SortByIndex(sel);
    var rest := Select(ks, false);
    var r := idx + rest;
    assert ForInOrder(ks) == r;
    SameLength(idx, sel);
    assert |sel| == |idx|;
    assert r[..|idx|] == idx;
    assert SortedByIndex(r[..|sel|]);
    IndexPart(idx, sel);
    assert forall i :: 0 <= i < |sel| ==> r[i] == idx[i];
    assert forall i :: |sel| <= i < |r| ==> r[i] == rest[i - |sel|];
  }

  lemma SameLength(a: seq<string>, b: seq<string>)
    requires multiset(a) == multiset(b)
    ensures |a| == |b|
  {
    assert |multiset(a)| == |a| && |multiset(b)| == |b|;
  }

  lemma IndexPart(idx: seq<string>, sel: seq<string>)
    requires multiset(idx) == multiset(sel)
    requires forall k :: k in sel ==> IsArrayIndex(k)
    ensures forall i :: 0 <= i < |idx| ==> IsArrayIndex(idx[i])
  {
    forall i | 0 <= i < |idx| ensures IsArrayIndex(idx[i]) {
      assert idx[i] in multiset(idx);
      assert idx[i] in sel;
    }
  }

  /** Without numeric keys, enumeration follows creation order exactly. */
  lemma {:induction false} SelectNoIndexKeys(ks: seq<string>)
    requires forall i :: 0 <= i < |ks| ==> !IsArrayIndex(ks[i])
    ensures Select(ks, false) == ks && Select(ks, true) == []
  {
    if ks != [] {
      SelectNoIndexKeys(ks[1..]);
    }
  }

  lemma ForInOrderOfNonNumericKeys(ks: seq<string>)
    requires forall i :: 0 <= i < |ks| ==> !IsArrayIndex(ks[i])
    ensures ForInOrder(ks) == ks
  {
    SelectNoIndexKeys(ks);
  }

  /** Every property is visited exactly once. */
  lemma ForInOrderVisitsEachKeyOnce(ks: seq<string>)
    requires NoDup(ks)
    ensures NoDup(ForInOrder(ks))
    ensures forall k :: k in ForInOrder(ks) <==> k in ks
  {
    var r := ForInOrder(ks);
    assert forall k :: k in r <==> k in multiset(r);
    assert forall k :: k in ks <==> k in multiset(ks);
    forall i, j | 0 <= i < j < |r| ensures r[i] != r[j] {
      if r[i] == r[j] {
        MultiplicityOfRepeat(r, i, j);
        NoDupMultiplicity(ks, r[i]);
      }
    }
  }

  lemma {:induction false} MultiplicityOfRepeat(s: seq<string>, i: nat, j: nat)
    requires i < j < |s| && s[i] == s[j]
    ensures multiset(s)[s[i]] >= 2
  {
    var x := s[i];
    assert s == s[..i] + [x] + s[i + 1..j] + [x] + s[j + 1..];
    assert multiset(s) == multiset(s[..i]) + multiset{x} + multiset(s[i + 1..j]) + multiset{x} + multiset(s[j + 1..]);
  }

  lemma {:induction false} NoDupMultiplicity(s: seq<string>, x: string)
    requires NoDup(s)
    ensures multiset(s)[x] <= 1
  {
    if s != [] {
      NoDupMultiplicity(s[1..], x);
      assert s == [s[0]] + s[1..];
      assert s[0] !in s[1..];
    }
  }
}
