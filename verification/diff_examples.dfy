/** Worked examples of flattening and diffing small trees. Each example is
    split into the two flattened views, the diff of those views, and the
    diff of the trees. */
module DiffExamples {
  import opened Wrappers
  import opened JsonTree
  import opened PropertyDiffs

  // A changed text field is reported with both texts.

  lemma TitleViews()
    ensures Flatten(JObj([("title", JStr("A"))])) == map["title" := "A"]
    ensures Flatten(JObj([("title", JStr("B"))])) == map["title" := "B"]
  {
  }

  lemma TitleViewsDiff()
    ensures DiffViews(map["title" := "A"], map["title" := "B"]) == [PropertyDiff("title", Some("A"), Some("B"))]
  {
    DiffViewsBlocks(map["title" := "A"], map["title" := "B"], ["title"], [], []);
  }

  lemma ChangedTitle()
    ensures Diff(Some(JObj([("title", JStr("A"))])), Some(JObj([("title", JStr("B"))])))
         == Success([PropertyDiff("title", Some("A"), Some("B"))])
  {
    TitleViews();
    TitleViewsDiff();
  }

  // A field present only after is reported as added.

  lemma TagViews()
    ensures Flatten(JObj([])) == map[]
    ensures Flatten(JObj([("tag", JStr("new"))])) == map["tag" := "new"]
  {
  }

  lemma TagViewsDiff()
    ensures DiffViews(map[], map["tag" := "new"]) == [PropertyDiff("tag", None, Some("new"))]
  {
    DiffViewsBlocks(map[], map["tag" := "new"], [], ["tag"], []);
  }

  lemma AddedTag()
    ensures Diff(Some(JObj([])), Some(JObj([("tag", JStr("new"))])))
         == Success([PropertyDiff("tag", None, Some("new"))])
  {
    TagViews();
    TagViewsDiff();
  }

  // Dropping the last list element reports its leaf as removed, under the
  // element's index.

  lemma ListViews()
    ensures Flatten(JObj([("list", JArr([JStr("x"), JStr("y")]))])) == map["list[0]" := "x", "list[1]" := "y"]
    ensures Flatten(JObj([("list", JArr([JStr("x")]))])) == map["list[0]" := "x"]
  {
    assert ElementPath("list", 0) == "list[0]";
    assert ElementPath("list", 1) == "list[1]";
  }

  lemma ListViewsDiff()
    ensures DiffViews(map["list[0]" := "x", "list[1]" := "y"], map["list[0]" := "x"])
         == [PropertyDiff("list[1]", Some("y"), None)]
  {
    DiffViewsBlocks(map["list[0]" := "x", "list[1]" := "y"], map["list[0]" := "x"], ["list[0]"], [], ["list[1]"]);
  }

  lemma DroppedElement()
    ensures Diff(Some(JObj([("list", JArr([JStr("x"), JStr("y")]))])), Some(JObj([("list", JArr([JStr("x")]))])))
         == Success([PropertyDiff("list[1]", Some("y"), None)])
  {
    ListViews();
    ListViewsDiff();
  }

  // A nested field gets the path `<parent>.<name>`.

  lemma NestedViews()
    ensures Flatten(JObj([("a", JObj([("b", JNum("1"))]))])) == map["a.b" := "1"]
    ensures Flatten(JObj([("a", JObj([("b", JNum("1")), ("c", JNum("2"))]))])) == map["a.b" := "1", "a.c" := "2"]
  {
    assert FieldPath("a", "b") == "a.b";
    assert FieldPath("a", "c") == "a.c";
  }

  lemma NestedViewsDiff()
    ensures DiffViews(map["a.b" := "1"], map["a.b" := "1", "a.c" := "2"]) == [PropertyDiff("a.c", None, Some("2"))]
  {
    DiffViewsBlocks(map["a.b" := "1"], map["a.b" := "1", "a.c" := "2"], ["a.b"], ["a.c"], []);
  }

  lemma AddedNestedField()
    ensures Diff(Some(JObj([("a", JObj([("b", JNum("1"))]))])),
                 Some(JObj([("a", JObj([("b", JNum("1")), ("c", JNum("2"))]))])))
         == Success([PropertyDiff("a.c", None, Some("2"))])
  {
    NestedViews();
    NestedViewsDiff();
  }

  // Numbers compare by their rendered text: a floating-point `1.0` and an
  // integral `1` are reported as a change.

  lemma NumberViews()
    ensures Flatten(JObj([("n", JNum("1.0"))])) == map["n" := "1.0"]
    ensures Flatten(JObj([("n", JNum("1"))])) == map["n" := "1"]
  {
  }

  lemma NumberViewsDiff()
    ensures DiffViews(map["n" := "1.0"], map["n" := "1"]) == [PropertyDiff("n", Some("1.0"), Some("1"))]
  {
    DiffViewsBlocks(map["n" := "1.0"], map["n" := "1"], ["n"], [], []);
  }

  lemma NumbersCompareAsText()
    ensures Diff(Some(JObj([("n", JNum("1.0"))])), Some(JObj([("n", JNum("1"))])))
         == Success([PropertyDiff("n", Some("1.0"), Some("1"))])
  {
    NumberViews();
    NumberViewsDiff();
  }

  /** Different trees can flatten to the same view: a dotted field name and
      a nested field produce the same path. */
  lemma PathsNotInjective()
    ensures Flatten(JObj([("a.b", JNum("1"))])) == Flatten(JObj([("a", JObj([("b", JNum("1"))]))]))
  {
    assert Flatten(JObj([("a.b", JNum("1"))])) == map["a.b" := "1"];
    NestedViews();
  }
}
