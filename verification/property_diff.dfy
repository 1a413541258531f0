/** `PropertyDiffService.diff` and its `PropertyDiff` record: the per-path
    changes between the flattened views of two values. */
module PropertyDiffs {
  import opened Wrappers
  import opened StringOrder
  import opened JsonTree

  /** One reported change. `None` stands for a Java `null` old or new value. */
  datatype PropertyDiff = PropertyDiff(propertyPath: string, oldValue: Option<string>, newValue: Option<string>)

  /** `Objects.equals` on two nullable strings. */
  predicate NullSafeEquals(a: Option<string>, b: Option<string>) {
    match (a, b)
    case (None, None) => true
    case (Some(x), Some(y)) => x == y
    case _ => false
  }

  /** `PropertyDiff.equals(Object)`: `other` is `None` for a `null` argument.
      Two records are equal exactly when all three fields are, with absent
      values equal only to absent values. */
  predicate DiffEquals(self: PropertyDiff, other: Option<PropertyDiff>)
    ensures DiffEquals(self, other) <==> other == Some(self)
  {
    other.Some?
    && self.propertyPath == other.value.propertyPath
    && NullSafeEquals(self.oldValue, other.value.oldValue)
    && NullSafeEquals(self.newValue, other.value.newValue)
  }

  /** A path in both views whose texts differ, reported with both texts. */
  ghost predicate IsChange(d: PropertyDiff, before: View, after: View) {
    var p := d.propertyPath;
    p in before && p in after && before[p] != after[p]
    && d.oldValue == Some(before[p]) && d.newValue == Some(after[p])
  }

  /** A path only in the after view, reported with no old value. */
  ghost predicate IsAddition(d: PropertyDiff, before: View, after: View) {
    var p := d.propertyPath;
    p !in before && p in after && d.oldValue == None && d.newValue == Some(after[p])
  }

  /** A path only in the before view, reported with no new value. */
  ghost predicate IsRemoval(d: PropertyDiff, before: View, after: View) {
    var p := d.propertyPath;
    p in before && p !in after && d.oldValue == Some(before[p]) && d.newValue == None
  }

  /** Position of a record's kind in the output: changes, then additions,
      then removals. */
  function Rank(d: PropertyDiff): nat {
    if d.oldValue.Some? && d.newValue.Some? then 0
    else if d.oldValue.None? then 1
    else 2
  }

  /** `d1` may precede `d2` in a diff: an earlier kind, or the same kind
      and an ascending path. */
  ghost predicate InOrder(d1: PropertyDiff, d2: PropertyDiff) {
    Rank(d1) < Rank(d2) || (Rank(d1) == Rank(d2) && Less(d1.propertyPath, d2.propertyPath))
  }

  ghost predicate PathsAscending(r: seq<PropertyDiff>) {
    forall i, j :: 0 <= i < j < |r| ==> Less(r[i].propertyPath, r[j].propertyPath)
  }

  /** The loop over the common paths: one record per path whose texts differ. */
  function Changes(paths: seq<string>, before: View, after: View): (r: seq<PropertyDiff>)
    requires forall p :: p in paths ==> p in before && p in after
    ensures forall d :: d in r ==> d.propertyPath in paths && IsChange(d, before, after)
    ensures forall p :: p in paths && before[p] != after[p] ==> PropertyDiff(p, Some(before[p]), Some(after[p])) in r
    ensures StrictlySorted(paths) ==> PathsAscending(r)
  {
    if paths == [] then []
    else
      var p := paths[0];
      var rest := Changes(paths[1..], before, after);
      assert forall q :: q in paths ==> q == p || q in paths[1..];
      if before[p] != after[p] then [PropertyDiff(p, Some(before[p]), Some(after[p]))] + rest else rest
  }

  /** The loop over the added paths. */
  function Additions(paths: seq<string>, after: View): seq<PropertyDiff>
    requires forall p :: p in paths ==> p in after
  {
    seq(|paths|, i requires 0 <= i < |paths| => PropertyDiff(paths[i], None, Some(after[paths[i]])))
  }

  /** The loop over the removed paths. */
  function Removals(paths: seq<string>, before: View): seq<PropertyDiff>
    requires forall p :: p in paths ==> p in before
  {
    seq(|paths|, i requires 0 <= i < |paths| => PropertyDiff(paths[i], Some(before[paths[i]]), None))
  }

  /** The diff of two flattened views. Every record is a change, an addition
      or a removal; every changed, added and removed path is reported; no
      path twice; and the records come as all changes by ascending path, then
      all additions by ascending path, then all removals by ascending path. */
  function DiffViews(before: View, after: View): (r: seq<PropertyDiff>)
    ensures forall d :: d in r ==> IsChange(d, before, after) || IsAddition(d, before, after) || IsRemoval(d, before, after)
    ensures forall p :: p in before && p in after && before[p] != after[p] ==> PropertyDiff(p, Some(before[p]), Some(after[p])) in r
    ensures forall p :: p !in before && p in after ==> PropertyDiff(p, None, Some(after[p])) in r
    ensures forall p :: p in before && p !in after ==> PropertyDiff(p, Some(before[p]), None) in r
    ensures forall i, j :: 0 <= i < j < |r| ==> InOrder(r[i], r[j])
    ensures forall i, j :: 0 <= i < j < |r| ==> r[i].propertyPath != r[j].propertyPath
  {
    var common := Sorted(before.Keys * after.Keys);
    var added := Sorted(after.Keys - before.Keys);
    var removed := Sorted(before.Keys - after.Keys);
    DiffBlocks(before, after, common, added, removed);
    Changes(common, before, after) + Additions(added, after) + Removals(removed, before)
  }

  /** The three loops over the sorted common, added and removed paths
      together produce a diff with the properties `DiffViews` promises. */
  lemma DiffBlocks(before: View, after: View, common: seq<string>, added: seq<string>, removed: seq<string>)
    requires StrictlySorted(common) && forall p :: p in common <==> p in before && p in after
    requires StrictlySorted(added) && forall p :: p in added <==> p in after && p !in before
    requires StrictlySorted(removed) && forall p :: p in removed <==> p in before && p !in after
    ensures var r := Changes(common, before, after) + Additions(added, after) + Removals(removed, before);
      && (forall d :: d in r ==> IsChange(d, before, after) || IsAddition(d, before, after) || IsRemoval(d, before, after))
      && (forall p :: p in before && p in after && before[p] != after[p] ==> PropertyDiff(p, Some(before[p]), Some(after[p])) in r)
      && (forall p :: p !in before && p in after ==> PropertyDiff(p, None, Some(after[p])) in r)
      && (forall p :: p in before && p !in after ==> PropertyDiff(p, Some(before[p]), None) in r)
      && (forall i, j :: 0 <= i < j < |r| ==> InOrder(r[i], r[j]))
      && (forall i, j :: 0 <= i < j < |r| ==> r[i].propertyPath != r[j].propertyPath)
  {
    var c := Changes(common, before, after);
    var ad := Additions(added, after);
    var rm := Removals(removed, before);
    ChangesRank(c, before, after);
    AdditionsFacts(added, before, after);
    RemovalsFacts(removed, before, after);
    ConcatInOrder(c, ad, rm);
    ConcatMembers(c, ad, rm, before, after);
    ConcatPathsDistinct(c + ad + rm, before, after);
  }

  lemma ChangesRank(c: seq<PropertyDiff>, before: View, after: View)
    requires forall d :: d in c ==> IsChange(d, before, after)
    ensures forall i :: 0 <= i < |c| ==> Rank(c[i]) == 0
  {
    forall i | 0 <= i < |c|
      ensures Rank(c[i]) == 0
    {
      assert c[i] in c;
    }
  }

  /** What the loop over the added paths contributes. */
  lemma AdditionsFacts(paths: seq<string>, before: View, after: View)
    requires StrictlySorted(paths)
    requires forall p :: p in paths <==> p in after && p !in before
    ensures forall d :: d in Additions(paths, after) ==> IsAddition(d, before, after)
    ensures forall p :: p !in before && p in after ==> PropertyDiff(p, None, Some(after[p])) in Additions(paths, after)
    ensures PathsAscending(Additions(paths, after))
    ensures forall i :: 0 <= i < |Additions(paths, after)| ==> Rank(Additions(paths, after)[i]) == 1
  {
    var ad := Additions(paths, after);
    forall p | p !in before && p in after
      ensures PropertyDiff(p, None, Some(after[p])) in ad
    {
      var i :| 0 <= i < |paths| && paths[i] == p;
      assert ad[i] == PropertyDiff(p, None, Some(after[p]));
    }
  }

  /** What the loop over the removed paths contributes. */
  lemma RemovalsFacts(paths: seq<string>, before: View, after: View)
    requires StrictlySorted(paths)
    requires forall p :: p in paths <==> p in before && p !in after
    ensures forall d :: d in Removals(paths, before) ==> IsRemoval(d, before, after)
    ensures forall p :: p in before && p !in after ==> PropertyDiff(p, Some(before[p]), None) in Removals(paths, before)
    ensures PathsAscending(Removals(paths, before))
    ensures forall i :: 0 <= i < |Removals(paths, before)| ==> Rank(Removals(paths, before)[i]) == 2
  {
    var rm := Removals(paths, before);
    forall p | p in before && p !in after
      ensures PropertyDiff(p, Some(before[p]), None) in rm
    {
      var i :| 0 <= i < |paths| && paths[i] == p;
      assert rm[i] == PropertyDiff(p, Some(before[p]), None);
    }
  }

  lemma ConcatMembers(c: seq<PropertyDiff>, ad: seq<PropertyDiff>, rm: seq<PropertyDiff>, before: View, after: View)
    requires forall d :: d in c ==> IsChange(d, before, after)
    requires forall d :: d in ad ==> IsAddition(d, before, after)
    requires forall d :: d in rm ==> IsRemoval(d, before, after)
    ensures forall d :: d in c + ad + rm ==> IsChange(d, before, after) || IsAddition(d, before, after) || IsRemoval(d, before, after)
    ensures forall d :: d in c || d in ad || d in rm ==> d in c + ad + rm
  {
  }

  /** Records in order never share a path: within a kind the paths ascend,
      and the three kinds have disjoint paths. */
  lemma ConcatPathsDistinct(r: seq<PropertyDiff>, before: View, after: View)
    requires forall d :: d in r ==> IsChange(d, before, after) || IsAddition(d, before, after) || IsRemoval(d, before, after)
    requires forall i, j :: 0 <= i < j < |r| ==> InOrder(r[i], r[j])
    ensures forall i, j :: 0 <= i < j < |r| ==> r[i].propertyPath != r[j].propertyPath
  {
    forall i, j | 0 <= i < j < |r|
      ensures r[i].propertyPath != r[j].propertyPath
    {
      assert r[i] in r && r[j] in r;
      if Rank(r[i]) == Rank(r[j]) {
        LessIrreflexive(r[i].propertyPath);
      }
    }
  }

  /** The three blocks, each ascending by path and of a fixed kind, concatenate
      in order. */
  lemma ConcatInOrder(c: seq<PropertyDiff>, ad: seq<PropertyDiff>, rm: seq<PropertyDiff>)
    requires PathsAscending(c) && PathsAscending(ad) && PathsAscending(rm)
    requires forall i :: 0 <= i < |c| ==> Rank(c[i]) == 0
    requires forall i :: 0 <= i < |ad| ==> Rank(ad[i]) == 1
    requires forall i :: 0 <= i < |rm| ==> Rank(rm[i]) == 2
    ensures forall i, j :: 0 <= i < j < |c + ad + rm| ==> InOrder((c + ad + rm)[i], (c + ad + rm)[j])
  {
    var r := c + ad + rm;
    forall i, j | 0 <= i < j < |r|
      ensures InOrder(r[i], r[j])
    {
      if j < |c| {
        assert r[i] == c[i] && r[j] == c[j];
      } else if i < |c| {
        assert r[i] == c[i];
      } else if j < |c| + |ad| {
        assert r[i] == ad[i - |c|] && r[j] == ad[j - |c|];
      } else if i < |c| + |ad| {
        assert r[i] == ad[i - |c|] && r[j] == rm[j - |c| - |ad|];
      } else {
        assert r[i] == rm[i - |c| - |ad|] && r[j] == rm[j - |c| - |ad|];
      }
    }
  }

  /** Why `diff` can fail: `Objects.requireNonNull` on an argument. */
  datatype DiffError = NullArgument(message: string)

  /** `diff(before, after)` on the trees the two arguments serialise to;
      `None` is a `null` argument, rejected before anything is flattened,
      `before` first. */
  function Diff(before: Option<Json>, after: Option<Json>): (r: Result<seq<PropertyDiff>, DiffError>)
    ensures before.None? ==> r == Failure(NullArgument("before is required"))
    ensures before.Some? && after.None? ==> r == Failure(NullArgument("after is required"))
    ensures r.Success? <==> before.Some? && after.Some?
  {
    if before.None? then Failure(NullArgument("before is required"))
    else if after.None? then Failure(NullArgument("after is required"))
    else Success(DiffViews(Flatten(before.value), Flatten(after.value)))
  }

  // ---------------------------------------------------------------------
  // Properties
  // ---------------------------------------------------------------------

  /** The three kinds of record as the data model describes them: both
      values present and different, or exactly one present. */
  lemma DiffRecordsWellFormed(before: View, after: View, d: PropertyDiff)
    requires d in DiffViews(before, after)
    ensures d.oldValue.Some? || d.newValue.Some?
    ensures d.oldValue.Some? && d.newValue.Some? ==> d.oldValue.value != d.newValue.value
  {
  }

  lemma {:induction false} ChangesOfEqualViews(paths: seq<string>, v: View)
    requires forall p :: p in paths ==> p in v
    ensures Changes(paths, v, v) == []
  {
    if paths != [] {
      ChangesOfEqualViews(paths[1..], v);
    }
  }

  /** Comparing a view with itself reports nothing. */
  lemma DiffViewsSelf(v: View)
    ensures DiffViews(v, v) == []
  {
    ChangesOfEqualViews(Sorted(v.Keys * v.Keys), v);
    assert v.Keys - v.Keys == {};
  }

  /** `diff(x, x)` is empty for every value. */
  lemma DiffSelf(t: Json)
    ensures Diff(Some(t), Some(t)) == Success([])
  {
    DiffViewsSelf(Flatten(t));
  }

  function Swap(d: PropertyDiff): PropertyDiff {
    PropertyDiff(d.propertyPath, d.newValue, d.oldValue)
  }

  /** Diffing the other way round reports the same paths with old and new
      values exchanged: additions become removals and back. */
  lemma DiffViewsSymmetric(before: View, after: View)
    ensures forall d :: d in DiffViews(before, after) <==> Swap(d) in DiffViews(after, before)
  {
    var r1, r2 := DiffViews(before, after), DiffViews(after, before);
    forall d | d in r1
      ensures Swap(d) in r2
    {
      var p := d.propertyPath;
      if IsChange(d, before, after) {
        assert Swap(d) == PropertyDiff(p, Some(after[p]), Some(before[p]));
      } else if IsAddition(d, before, after) {
        assert Swap(d) == PropertyDiff(p, Some(after[p]), None);
      } else {
        assert Swap(d) == PropertyDiff(p, None, Some(before[p]));
      }
    }
    forall d | Swap(d) in r2
      ensures d in r1
    {
      var e := Swap(d);
      var p := e.propertyPath;
      assert d == Swap(e);
      if IsChange(e, after, before) {
        assert d == PropertyDiff(p, Some(before[p]), Some(after[p]));
      } else if IsAddition(e, after, before) {
        assert d == PropertyDiff(p, Some(before[p]), None);
      } else {
        assert d == PropertyDiff(p, None, Some(after[p]));
      }
    }
  }

  /** A null field and a missing field flatten alike, so switching between
      them is not reported. */
  lemma NullFieldNotReported(fields: seq<(string, Json)>, name: string, rest: seq<(string, Json)>)
    ensures Diff(Some(JObj(fields + [(name, JNull)] + rest)), Some(JObj(fields + rest))) == Success([])
  {
    var with := JObj(fields + [(name, JNull)] + rest);
    var without := JObj(fields + rest);
    NullFieldIsAbsent("", fields, name, rest);
    WalkIsPutAll("", with, map[]);
    WalkIsPutAll("", without, map[]);
    DiffViewsSelf(Flatten(without));
  }

  /** With the common, added and removed paths enumerated in ascending
      order, the diff is the three loops' output in sequence. */
  lemma DiffViewsBlocks(before: View, after: View, common: seq<string>, added: seq<string>, removed: seq<string>)
    requires StrictlySorted(common) && forall p :: p in common <==> p in before && p in after
    requires StrictlySorted(added) && forall p :: p in added <==> p in after && p !in before
    requires StrictlySorted(removed) && forall p :: p in removed <==> p in before && p !in after
    ensures DiffViews(before, after) == Changes(common, before, after) + Additions(added, after) + Removals(removed, before)
  {
    SortedIs(before.Keys * after.Keys, common);
    SortedIs(after.Keys - before.Keys, added);
    SortedIs(before.Keys - after.Keys, removed);
  }

  /** The output is not one globally sorted list: an added path that sorts
      after a removed path still comes first. */
  lemma NotGloballySorted()
    ensures DiffViews(map["a" := "1"], map["b" := "1"])
         == [PropertyDiff("b", None, Some("1")), PropertyDiff("a", Some("1"), None)]
    ensures Less("a", "b")
  {
    DiffViewsBlocks(map["a" := "1"], map["b" := "1"], [], ["b"], ["a"]);
  }
}
