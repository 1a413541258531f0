/** The equality predicates the tests use to compare collections: content
    equality of two collections, and element-wise equality of sets, lists
    and maps that descends into nested collections.

    Java values are modelled by `Value`; Java's `equals` on them is Dafny's
    `==`, which is structural exactly as `equals` of the JDK's sets, lists
    and maps is. A `null` argument is `None` (for a collection argument) or
    `Null` (for an element or map value). */
module CollectionUtil {
  import opened Wrappers

  datatype Value =
    | Null
    | Atom(text: string)
    | SetV(elems: set<Value>)
    | ListV(items: seq<Value>)
    | MapV(entries: map<Value, Value>)

  // ----------------------------------------------------- content equality

  /** `b.containsAll(a)`-style inclusion: every element of `ys` is in `xs`. */
  predicate ContainsAll(xs: multiset<Value>, ys: multiset<Value>) {
    forall y :: y in ys ==> y in xs
  }

  /** `equalContent`: both `null`, or neither, with the same size and each
      containing all elements of the other. A collection is seen as the
      multiset of what it iterates, so `size` counts repeated elements
      while `containsAll` does not. */
  function EqualContent(a: Option<multiset<Value>>, b: Option<multiset<Value>>): (r: bool)
    ensures a == b ==> r
    ensures r ==> (a.None? <==> b.None?)
    ensures r && a.Some? ==> |a.value| == |b.value|
  {
    if a.None? || b.None? then a.None? && b.None?
    else if |a.value| != |b.value| then false
    else ContainsAll(a.value, b.value) && ContainsAll(b.value, a.value)
  }

  /** A set argument as a collection: each element once. */
  function SetContent(s: Option<set<Value>>): (c: Option<multiset<Value>>)
    ensures c.Some? <==> s.Some?
    ensures c.Some? ==> |c.value| == |s.value| && forall x :: x in c.value <==> x in s.value
  {
    if s.Some? then Some(multiset(s.value)) else None
  }

  /** `equals(Set, Set)`: content equality, which for sets is equality. */
  function SetEquals(a: Option<set<Value>>, b: Option<set<Value>>): (r: bool)
    ensures r <==> a == b
  {
    SetContentEquality(a, b);
    EqualContent(SetContent(a), SetContent(b))
  }

  // --------------------------------------------------- element-wise equality

  /** `checkEquals`: two sets, two lists or two maps are compared with the
      matching `equals`; anything else with `Objects.equals`. */
  function CheckEquals(a: Value, b: Value): bool
    decreases a, 2, 0
  {
    if a.SetV? && b.SetV? then SetEquals(Some(a.elems), Some(b.elems))
    else if a.ListV? && b.ListV? then ListEquals(Some(a.items), Some(b.items))
    else if a.MapV? && b.MapV? then MapEquals(Some(a.entries), Some(b.entries))
    else a == b
  }

  /** `equals(List, List)`: both `null`, or neither, with the same size and
      `checkEquals` holding position by position. */
  function ListEquals(a: Option<seq<Value>>, b: Option<seq<Value>>): bool
    decreases if a.Some? then ListV(a.value) else Null, 1, 0
  {
    if a.None? || b.None? then a.None? && b.None?
    else if |a.value| != |b.value| then false
    else Pairwise(a.value, b.value, 0)
  }

  /** The loop of `equals(List, List)` from position `i` on. */
  function Pairwise(xs: seq<Value>, ys: seq<Value>, i: nat): bool
    requires |xs| == |ys| && i <= |xs|
    decreases ListV(xs), 0, |xs| - i
  {
    if i == |xs| then true
    else if !CheckEquals(xs[i], ys[i]) then false
    else Pairwise(xs, ys, i + 1)
  }

  /** `Map.get`: the value under `k`, or `null`. */
  function MapGet(m: map<Value, Value>, k: Value): Value {
    if k in m then m[k] else Null
  }

  /** `equals(Map, Map)`: both `null`, or neither, with the same size, key
      sets equal by `checkEquals`, and `checkEquals` holding for the values
      under every key of the first map. */
  function MapEquals(a: Option<map<Value, Value>>, b: Option<map<Value, Value>>): bool
    decreases if a.Some? then MapV(a.value) else Null, 1, 0
  {
    if a.None? || b.None? then a.None? && b.None?
    else if |a.value| != |b.value| then false
    else if !SetEquals(Some(a.value.Keys), Some(b.value.Keys)) then false
    else forall k :: k in a.value ==> CheckEquals(a.value[k], MapGet(b.value, k))
  }

  // ------------------------------------------------------------ properties

  /** Two sets of the same size, each containing the other's elements, are
      equal. */
  lemma SetContentEquality(a: Option<set<Value>>, b: Option<set<Value>>)
    ensures EqualContent(SetContent(a), SetContent(b)) <==> a == b
  {
    if a.Some? && b.Some? && EqualContent(SetContent(a), SetContent(b)) {
      assert forall x :: x in a.value ==> x in multiset(b.value);
      assert forall x :: x in b.value ==> x in multiset(a.value);
      assert a.value == b.value;
    }
  }

  /** On collections without repeated elements, as those built from sets or
      from lists of distinct elements, equal content is equality of the
      collections. */
  lemma EqualContentWithoutRepeats(a: multiset<Value>, b: multiset<Value>)
    requires forall x :: a[x] <= 1
    requires forall x :: b[x] <= 1
    ensures EqualContent(Some(a), Some(b)) <==> a == b
  {
  }

  /** Multiplicity is ignored: `[x, x, y]` and `[x, y, y]` have equal
      content though they are different lists with different counts. */
  lemma EqualContentIgnoresCounts(x: Value, y: Value)
    requires x != y
    ensures EqualContent(Some(multiset([x, x, y])), Some(multiset([x, y, y])))
    ensures multiset([x, x, y]) != multiset([x, y, y])
    ensures [x, x, y] != [x, y, y]
  {
    var a, b := multiset([x, x, y]), multiset([x, y, y]);
    assert a[x] == 2 && b[x] == 1;
    assert |a| == 3 && |b| == 3;
    assert [x, x, y][1] != [x, y, y][1];
  }

  /** `equalContent` is symmetric. */
  lemma EqualContentSymmetric(a: Option<multiset<Value>>, b: Option<multiset<Value>>)
    ensures EqualContent(a, b) == EqualContent(b, a)
  {
  }

  /** `checkEquals` is Java equality: it holds exactly for equal values,
      however deeply sets, lists and maps are nested. */
  lemma {:induction false} CheckEqualsIsEquality(a: Value, b: Value)
    ensures CheckEquals(a, b) <==> a == b
    decreases a, 2, 0
  {
    if a.ListV? && b.ListV? {
      ListEqualsIsEquality(Some(a.items), Some(b.items));
    } else if a.MapV? && b.MapV? {
      MapEqualsIsEquality(Some(a.entries), Some(b.entries));
    }
  }

  /** `equals(List, List)` holds exactly for equal lists (or two `null`s). */
  lemma {:induction false} ListEqualsIsEquality(a: Option<seq<Value>>, b: Option<seq<Value>>)
    ensures ListEquals(a, b) <==> a == b
    decreases if a.Some? then ListV(a.value) else Null, 1, 0
  {
    if a.Some? && b.Some? && |a.value| == |b.value| {
      PairwiseIsEquality(a.value, b.value, 0);
      assert a.value[0..] == a.value && b.value[0..] == b.value;
    }
  }

  lemma {:induction false} PairwiseIsEquality(xs: seq<Value>, ys: seq<Value>, i: nat)
    requires |xs| == |ys| && i <= |xs|
    ensures Pairwise(xs, ys, i) <==> xs[i..] == ys[i..]
    decreases ListV(xs), 0, |xs| - i
  {
    if i < |xs| {
      CheckEqualsIsEquality(xs[i], ys[i]);
      PairwiseIsEquality(xs, ys, i + 1);
      assert xs[i..] == [xs[i]] + xs[i + 1..];
      assert ys[i..] == [ys[i]] + ys[i + 1..];
      if xs[i..] == ys[i..] {
        assert xs[i] == xs[i..][0] == ys[i..][0] == ys[i];
        assert xs[i + 1..] == xs[i..][1..] == ys[i..][1..] == ys[i + 1..];
      }
    }
  }

  /** `equals(Map, Map)` holds exactly for equal maps (or two `null`s). */
  lemma {:induction false} MapEqualsIsEquality(a: Option<map<Value, Value>>, b: Option<map<Value, Value>>)
    ensures MapEquals(a, b) <==> a == b
    decreases if a.Some? then MapV(a.value) else Null, 1, 0
  {
    if a.Some? && b.Some? && a.value.Keys == b.value.Keys {
      var m, n := a.value, b.value;
      forall k | k in m
        ensures CheckEquals(m[k], MapGet(n, k)) <==> m[k] == n[k]
      {
        CheckEqualsIsEquality(m[k], n[k]);
      }
      if forall k :: k in m ==> m[k] == n[k] {
        assert m == n;
      }
    }
  }

  /** All three `equals` and `checkEquals` are reflexive, so the
      same-reference shortcut at their start changes no outcome. */
  lemma EqualsReflexive(v: Value, s: Option<set<Value>>, l: Option<seq<Value>>, m: Option<map<Value, Value>>)
    ensures CheckEquals(v, v) && SetEquals(s, s) && ListEquals(l, l) && MapEquals(m, m)
  {
    CheckEqualsIsEquality(v, v);
    ListEqualsIsEquality(l, l);
    MapEqualsIsEquality(m, m);
  }

  /** A `null` and a non-`null` collection are never equal. */
  lemma NullNeverEqual(s: set<Value>, l: seq<Value>, m: map<Value, Value>)
    ensures !SetEquals(None, Some(s)) && !SetEquals(Some(s), None)
    ensures !ListEquals(None, Some(l)) && !ListEquals(Some(l), None)
    ensures !MapEquals(None, Some(m)) && !MapEquals(Some(m), None)
  {
  }

  /** Lists of different orders differ: `equals(List, List)` is not content
      equality. */
  lemma ListOrderMatters(x: Value, y: Value)
    requires x != y
    ensures !ListEquals(Some([x, y]), Some([y, x]))
    ensures EqualContent(Some(multiset([x, y])), Some(multiset([y, x])))
  {
    ListEqualsIsEquality(Some([x, y]), Some([y, x]));
    assert [x, y][0] != [y, x][0];
    assert multiset([x, y]) == multiset([y, x]);
  }
}
