/** The scenario of the diff service's own test: a movie before and after a
    round of edits. Before, the synopsis is null and there are three actors;
    after, the title, year and aspect ratio change, the synopsis is set, the
    last actor is dropped and a metadata entry is added. The actor's age is
    rendered as the fixed text "62": `Actor.getAge` derives it from the
    clock through `LocalDate.now()`, which is not part of this model. */
module MovieScenario {
  import opened Wrappers
  import opened JsonTree
  import opened PropertyDiffs
  import opened StringOrder

  // The two trees, as the object mapper would produce them.

  function Actor(first: string): Json { JObj([("firstName", JStr(first))]) }

  const Sean: Json := JObj([("firstName", JStr("Sean")), ("lastName", JStr("Young")),
                                 ("dateOfBirth", JStr("1959-11-20")), ("age", JNum("62"))])

  function MovieBefore(): Json {
    JObj([("title", JStr("Blade Runner")), ("year", JNum("1982")), ("synopsis", JNull),
          ("aspect-ratio", JStr("2.39:1")),
          ("actors", JArr([Actor("Harrison"), Actor("Rutger"), Sean])),
          ("metadata", JObj([]))])
  }

  // Flattening the tree before the edits.

  lemma ActorPaths()
    ensures ElementPath("actors", 0) == "actors[0]"
    ensures ElementPath("actors", 1) == "actors[1]"
    ensures ElementPath("actors", 2) == "actors[2]"
  {
  }

  lemma ActorView(base: string, first: string, acc: View)
    requires base != ""
    ensures Walk(base, Actor(first), acc) == acc[base + ".firstName" := first]
  {
    assert FieldPath(base, "firstName") == base + ".firstName";
    assert Walk(base + ".firstName", JStr(first), acc) == acc[base + ".firstName" := first];
    assert WalkFields(base, Actor(first), 1, acc[base + ".firstName" := first]) == acc[base + ".firstName" := first];
  }

  lemma SeanView(acc: View)
    ensures Walk("actors[2]", Sean, acc) == acc["actors[2].firstName" := "Sean"]["actors[2].lastName" := "Young"]["actors[2].dateOfBirth" := "1959-11-20"]["actors[2].age" := "62"]
  {
    var n := Sean;
    assert FieldPath("actors[2]", "firstName") == "actors[2].firstName";
    assert FieldPath("actors[2]", "lastName") == "actors[2].lastName";
    assert FieldPath("actors[2]", "dateOfBirth") == "actors[2].dateOfBirth";
    assert FieldPath("actors[2]", "age") == "actors[2].age";
    var m1 := acc["actors[2].firstName" := "Sean"];
    var m2 := m1["actors[2].lastName" := "Young"];
    var m3 := m2["actors[2].dateOfBirth" := "1959-11-20"];
    var m4 := m3["actors[2].age" := "62"];
    assert WalkFields("actors[2]", n, 4, m4) == m4;
    assert WalkFields("actors[2]", n, 3, m3) == m4;
    assert WalkFields("actors[2]", n, 2, m2) == m4;
    assert WalkFields("actors[2]", n, 1, m1) == m4;
    assert WalkFields("actors[2]", n, 0, acc) == m4;
  }

  const BeforeView: View := map[
      "title" := "Blade Runner", "year" := "1982", "aspect-ratio" := "2.39:1",
      "actors[0].firstName" := "Harrison", "actors[1].firstName" := "Rutger",
      "actors[2].firstName" := "Sean", "actors[2].lastName" := "Young",
      "actors[2].dateOfBirth" := "1959-11-20", "actors[2].age" := "62"]

  lemma MovieBeforeView()
    ensures Flatten(MovieBefore()) == BeforeView
  {
    var t := MovieBefore();
    var m1 := map["title" := "Blade Runner"];
    var m2 := m1["year" := "1982"];
    var m4 := m2["aspect-ratio" := "2.39:1"];
    var m5 := m4["actors[0].firstName" := "Harrison"]["actors[1].firstName" := "Rutger"]["actors[2].firstName" := "Sean"]["actors[2].lastName" := "Young"]["actors[2].dateOfBirth" := "1959-11-20"]["actors[2].age" := "62"];
    ActorsView(m4);
    assert WalkFields("", t, 6, m5) == m5;
    assert WalkFields("", t, 5, m5) == m5;
    assert WalkFields("", t, 4, m4) == m5;
    assert WalkFields("", t, 3, m2) == m5;
    assert WalkFields("", t, 2, m2) == m5;
    assert WalkFields("", t, 1, m1) == m5;
    assert WalkFields("", t, 0, map[]) == m5;
  }

  lemma ActorsView(acc: View)
    ensures Walk("actors", JArr([Actor("Harrison"), Actor("Rutger"), Sean]), acc)
         == acc["actors[0].firstName" := "Harrison"]["actors[1].firstName" := "Rutger"]["actors[2].firstName" := "Sean"]["actors[2].lastName" := "Young"]["actors[2].dateOfBirth" := "1959-11-20"]["actors[2].age" := "62"]
  {
    var n := JArr([Actor("Harrison"), Actor("Rutger"), Sean]);
    ActorPaths();
    var m1 := acc["actors[0].firstName" := "Harrison"];
    var m2 := m1["actors[1].firstName" := "Rutger"];
    var m3 := m2["actors[2].firstName" := "Sean"]["actors[2].lastName" := "Young"]["actors[2].dateOfBirth" := "1959-11-20"]["actors[2].age" := "62"];
    ActorView("actors[0]", "Harrison", acc);
    ActorView("actors[1]", "Rutger", m1);
    assert "actors[0]" + ".firstName" == "actors[0].firstName";
    assert "actors[1]" + ".firstName" == "actors[1].firstName";
    SeanView(m2);
    assert WalkItems("actors", n, 3, m3) == m3;
    assert WalkItems("actors", n, 2, m2) == m3;
    assert WalkItems("actors", n, 1, m1) == m3;
    assert WalkItems("actors", n, 0, acc) == m3;
  }

  // Flattening the tree after the edits.

  function MovieAfter(): Json {
    JObj([("title", JStr("Changed")), ("year", JNum("1983")), ("synopsis", JStr("Replicants")),
          ("aspect-ratio", JStr("4:3")),
          ("actors", JArr([Actor("Harrison"), Actor("Rutger")])),
          ("metadata", JObj([("new", JStr("value"))]))])
  }

  const AfterView: View := map[
      "title" := "Changed", "year" := "1983", "synopsis" := "Replicants", "aspect-ratio" := "4:3",
      "actors[0].firstName" := "Harrison", "actors[1].firstName" := "Rutger", "metadata.new" := "value"]

  lemma TwoActorsView(acc: View)
    ensures Walk("actors", JArr([Actor("Harrison"), Actor("Rutger")]), acc)
         == acc["actors[0].firstName" := "Harrison"]["actors[1].firstName" := "Rutger"]
  {
    var n := JArr([Actor("Harrison"), Actor("Rutger")]);
    ActorPaths();
    var m1 := acc["actors[0].firstName" := "Harrison"];
    var m2 := m1["actors[1].firstName" := "Rutger"];
    ActorView("actors[0]", "Harrison", acc);
    ActorView("actors[1]", "Rutger", m1);
    assert "actors[0]" + ".firstName" == "actors[0].firstName";
    assert "actors[1]" + ".firstName" == "actors[1].firstName";
    assert WalkItems("actors", n, 2, m2) == m2;
    assert WalkItems("actors", n, 1, m1) == m2;
    assert WalkItems("actors", n, 0, acc) == m2;
  }

  lemma MetadataView(acc: View)
    ensures Walk("metadata", JObj([("new", JStr("value"))]), acc) == acc["metadata.new" := "value"]
  {
    assert FieldPath("metadata", "new") == "metadata.new";
    assert WalkFields("metadata", JObj([("new", JStr("value"))]), 1, acc["metadata.new" := "value"]) == acc["metadata.new" := "value"];
  }

  const AfterScalarView: View := map["title" := "Changed", "year" := "1983", "synopsis" := "Replicants", "aspect-ratio" := "4:3"]

  lemma AfterScalars()
    ensures WalkFields("", MovieAfter(), 0, map[]) == WalkFields("", MovieAfter(), 4, AfterScalarView)
  {
    var t := MovieAfter();
    var m1 := map["title" := "Changed"];
    var m2 := m1["year" := "1983"];
    var m3 := m2["synopsis" := "Replicants"];
    assert FieldPath("", "title") == "title" && FieldPath("", "year") == "year";
    assert FieldPath("", "synopsis") == "synopsis" && FieldPath("", "aspect-ratio") == "aspect-ratio";
    assert WalkFields("", t, 0, map[]) == WalkFields("", t, 1, m1);
    assert WalkFields("", t, 1, m1) == WalkFields("", t, 2, m2);
    assert WalkFields("", t, 2, m2) == WalkFields("", t, 3, m3);
    assert WalkFields("", t, 3, m3) == WalkFields("", t, 4, AfterScalarView);
  }

  lemma AfterNested()
    ensures WalkFields("", MovieAfter(), 4, AfterScalarView) == AfterView
  {
    var t := MovieAfter();
    var m4 := AfterScalarView;
    var m5 := m4["actors[0].firstName" := "Harrison"]["actors[1].firstName" := "Rutger"];
    var m6 := m5["metadata.new" := "value"];
    TwoActorsView(m4);
    MetadataView(m5);
    assert WalkFields("", t, 6, m6) == m6;
    assert WalkFields("", t, 5, m5) == m6;
  }

  lemma MovieAfterView()
    ensures Flatten(MovieAfter()) == AfterView
  {
    AfterScalars();
    AfterNested();
  }

  // The common, added and removed paths in ascending order.

  const Common := ["actors[0].firstName", "actors[1].firstName", "aspect-ratio", "title", "year"]
  const Added := ["metadata.new", "synopsis"]
  const Removed := ["actors[2].age", "actors[2].dateOfBirth", "actors[2].firstName", "actors[2].lastName"]

  lemma Ascending4(a: string, b: string, c: string, d: string)
    requires Less(a, b) && Less(b, c) && Less(c, d)
    ensures StrictlySorted([a, b, c, d])
  {
    SortedCons(c, [d]);
    assert [c] + [d] == [c, d];
    SortedCons(b, [c, d]);
    assert [b] + [c, d] == [b, c, d];
    SortedCons(a, [b, c, d]);
    assert [a] + [b, c, d] == [a, b, c, d];
  }

  lemma Ascending5(a: string, b: string, c: string, d: string, e: string)
    requires Less(a, b) && Less(b, c) && Less(c, d) && Less(d, e)
    ensures StrictlySorted([a, b, c, d, e])
  {
    Ascending4(b, c, d, e);
    SortedCons(a, [b, c, d, e]);
    assert [a] + [b, c, d, e] == [a, b, c, d, e];
  }

  lemma FirstActorsOrdered()
    ensures Less("actors[0].firstName", "actors[1].firstName")
  {
    PrefixedOrder("actors[", "0].firstName", "1].firstName", "actors[0].firstName", "actors[1].firstName");
  }

  lemma CommonSorted()
    ensures StrictlySorted(Common)
  {
    FirstActorsOrdered();
    assert Less("actors[1].firstName", "aspect-ratio");
    assert Less("aspect-ratio", "title");
    assert Less("title", "year");
    Ascending5("actors[0].firstName", "actors[1].firstName", "aspect-ratio", "title", "year");
  }

  lemma PrefixedOrder(p: string, a: string, b: string, pa: string, pb: string)
    requires Less(a, b) && pa == p + a && pb == p + b
    ensures Less(pa, pb)
  {
    LessCommonPrefix(p, a, b);
  }

  lemma AgeBeforeBirth()
    ensures Less("actors[2].age", "actors[2].dateOfBirth")
  {
    PrefixedOrder("actors[2].", "age", "dateOfBirth", "actors[2].age", "actors[2].dateOfBirth");
  }

  lemma BirthBeforeFirstName()
    ensures Less("actors[2].dateOfBirth", "actors[2].firstName")
  {
    PrefixedOrder("actors[2].", "dateOfBirth", "firstName", "actors[2].dateOfBirth", "actors[2].firstName");
  }

  lemma FirstNameBeforeLastName()
    ensures Less("actors[2].firstName", "actors[2].lastName")
  {
    PrefixedOrder("actors[2].", "firstName", "lastName", "actors[2].firstName", "actors[2].lastName");
  }

  lemma RemovedSorted()
    ensures StrictlySorted(Removed)
  {
    AgeBeforeBirth();
    BirthBeforeFirstName();
    FirstNameBeforeLastName();
    Ascending4("actors[2].age", "actors[2].dateOfBirth", "actors[2].firstName", "actors[2].lastName");
  }

  lemma AddedSorted()
    ensures StrictlySorted(Added)
  {
    assert Less("metadata.new", "synopsis");
  }

  lemma PathListsPartition()
    ensures forall p :: p in Common <==> p in BeforeView && p in AfterView
    ensures forall p :: p in Added <==> p in AfterView && p !in BeforeView
    ensures forall p :: p in Removed <==> p in BeforeView && p !in AfterView
  {
  }

  // The diff of the two views: the three changes, then the two additions,
  // then the four removals, each block by ascending path.

  const ExpectedChanges: seq<PropertyDiff> := [
    PropertyDiff("aspect-ratio", Some("2.39:1"), Some("4:3")),
    PropertyDiff("title", Some("Blade Runner"), Some("Changed")),
    PropertyDiff("year", Some("1982"), Some("1983"))]

  const ExpectedAdditions: seq<PropertyDiff> := [
    PropertyDiff("metadata.new", None, Some("value")),
    PropertyDiff("synopsis", None, Some("Replicants"))]

  const ExpectedRemovals: seq<PropertyDiff> := [
    PropertyDiff("actors[2].age", Some("62"), None),
    PropertyDiff("actors[2].dateOfBirth", Some("1959-11-20"), None),
    PropertyDiff("actors[2].firstName", Some("Sean"), None),
    PropertyDiff("actors[2].lastName", Some("Young"), None)]

  const Expected: seq<PropertyDiff> := ExpectedChanges + ExpectedAdditions + ExpectedRemovals

  lemma MovieViewsDiff()
    ensures DiffViews(BeforeView, AfterView) == Expected
  {
    MovieBlocks();
    MovieChanges();
    MovieAdditions();
    MovieRemovals();
  }

  lemma MovieBlocks()
    ensures forall p :: p in Common ==> p in BeforeView && p in AfterView
    ensures forall p :: p in Added ==> p in AfterView
    ensures forall p :: p in Removed ==> p in BeforeView
    ensures DiffViews(BeforeView, AfterView) == Changes(Common, BeforeView, AfterView) + Additions(Added, AfterView) + Removals(Removed, BeforeView)
  {
    CommonSorted();
    AddedSorted();
    RemovedSorted();
    PathListsPartition();
    DiffViewsBlocks(BeforeView, AfterView, Common, Added, Removed);
  }

  lemma MovieAdditions()
    ensures forall p :: p in Added ==> p in AfterView
    ensures Additions(Added, AfterView) == ExpectedAdditions
  {
    PathListsPartition();
  }

  lemma MovieRemovals()
    ensures forall p :: p in Removed ==> p in BeforeView
    ensures Removals(Removed, BeforeView) == ExpectedRemovals
  {
    PathListsPartition();
  }

  lemma CommonLookups()
    ensures "year" in BeforeView && "title" in BeforeView && "aspect-ratio" in BeforeView
    ensures "actors[0].firstName" in BeforeView && "actors[1].firstName" in BeforeView
    ensures "year" in AfterView && "title" in AfterView && "aspect-ratio" in AfterView
    ensures "actors[0].firstName" in AfterView && "actors[1].firstName" in AfterView
    ensures BeforeView["year"] == "1982" && AfterView["year"] == "1983"
    ensures BeforeView["title"] == "Blade Runner" && AfterView["title"] == "Changed"
    ensures BeforeView["aspect-ratio"] == "2.39:1" && AfterView["aspect-ratio"] == "4:3"
    ensures BeforeView["actors[1].firstName"] == AfterView["actors[1].firstName"] == "Rutger"
    ensures BeforeView["actors[0].firstName"] == AfterView["actors[0].firstName"] == "Harrison"
  {
  }

  /** The change block over five common paths of which the last three differ. */
  lemma LastThreeChanged(ps: seq<string>, b: View, a: View)
    requires |ps| == 5
    requires ps[0] in b && ps[1] in b && ps[2] in b && ps[3] in b && ps[4] in b
    requires ps[0] in a && ps[1] in a && ps[2] in a && ps[3] in a && ps[4] in a
    requires b[ps[0]] == a[ps[0]] && b[ps[1]] == a[ps[1]]
    requires b[ps[2]] != a[ps[2]] && b[ps[3]] != a[ps[3]] && b[ps[4]] != a[ps[4]]
    ensures Changes(ps, b, a) == [PropertyDiff(ps[2], Some(b[ps[2]]), Some(a[ps[2]])),
                                  PropertyDiff(ps[3], Some(b[ps[3]]), Some(a[ps[3]])),
                                  PropertyDiff(ps[4], Some(b[ps[4]]), Some(a[ps[4]]))]
  {
    var d2 := PropertyDiff(ps[2], Some(b[ps[2]]), Some(a[ps[2]]));
    var d3 := PropertyDiff(ps[3], Some(b[ps[3]]), Some(a[ps[3]]));
    var d4 := PropertyDiff(ps[4], Some(b[ps[4]]), Some(a[ps[4]]));
    assert ps[4..][1..] == [];
    assert Changes(ps[4..], b, a) == [d4];
    assert ps[3..][1..] == ps[4..];
    assert Changes(ps[3..], b, a) == [d3, d4];
    assert ps[2..][1..] == ps[3..];
    assert Changes(ps[2..], b, a) == [d2, d3, d4];
    assert ps[1..][1..] == ps[2..];
    assert Changes(ps[1..], b, a) == [d2, d3, d4];
  }

  lemma MovieChanges()
    ensures forall p :: p in Common ==> p in BeforeView && p in AfterView
    ensures Changes(Common, BeforeView, AfterView) == ExpectedChanges
  {
    CommonLookups();
    LastThreeChanged(Common, BeforeView, AfterView);
  }
  /** The whole scenario: the unchanged first names are not reported, the
      synopsis that was null is an addition, and every leaf of the dropped
      actor is a removal under `actors[2]`. */
  lemma ShouldDetectChanges()
    ensures Diff(Some(MovieBefore()), Some(MovieAfter())) == Success(Expected)
  {
    MovieBeforeView();
    MovieAfterView();
    MovieViewsDiff();
  }
}
