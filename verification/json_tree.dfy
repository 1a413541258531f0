/** The JSON tree the diff works on, and its flattening into a map from
    property path to leaf text (the private recursive `listPropertyPaths`
    of `PropertyDiffService`). */
module JsonTree {
  import opened Wrappers
  import Decimal

  /** A Jackson `JsonNode`. Numbers carry the text `String.valueOf` gives
      their value; `JOther` stands for the node kinds (binary, POJO, missing)
      that none of the flattener's branches handle. Object fields are kept in
      iteration order. Their names are assumed distinct, as in a Jackson
      `ObjectNode`, whose fields form a map; for a repeated name the walk
      here would visit each occurrence, where `get(fieldName)` finds one. */
  datatype Json =
    | JNull
    | JBool(b: bool)
    | JNum(rendered: string)
    | JStr(text: string)
    | JArr(items: seq<Json>)
    | JObj(fields: seq<(string, Json)>)
    | JOther

  /** The flattened view: property path to leaf text, a `TreeMap` in the source. */
  type View = map<string, string>

  /** One write the flattener performs: a path and the text stored under it. */
  type Entry = (string, string)

  /** The text stored for a leaf node, or `None` for a node that is not a
      boolean, number or text leaf. */
  function Render(node: Json): (r: Option<string>)
    ensures r.Some? <==> (node.JBool? || node.JNum? || node.JStr?)
    ensures node.JBool? ==> r == Some(if node.b then "true" else "false")
    ensures node.JNum? ==> r == Some(node.rendered)
    ensures node.JStr? ==> r == Some(node.text)
  {
    match node
    case JBool(b) => Some(if b then "true" else "false")
    case JNum(rendered) => Some(rendered)
    case JStr(text) => Some(text)
    case _ => None
  }

  /** Path of the field `name` below `base`: the bare name at the root. */
  function FieldPath(base: string, name: string): string {
    if base == "" then name else base + "." + name
  }

  /** Path of the element at position `i` below `base` (`"%s[%d]"`). */
  function ElementPath(base: string, i: nat): string {
    base + "[" + Decimal.NatToString(i) + "]"
  }

  /** The recursive walk: visits `node` at path `base` and stores its leaves
      into `acc`, a later store to the same path replacing an earlier one. */
  function Walk(base: string, node: Json, acc: View): View
    decreases node
  {
    match node
    case JNull => acc
    case JBool(_) => acc[base := Render(node).value]
    case JNum(_) => acc[base := Render(node).value]
    case JStr(_) => acc[base := Render(node).value]
    case JArr(_) => WalkItems(base, node, 0, acc)
    case JObj(_) => WalkFields(base, node, 0, acc)
    case JOther => acc
  }

  /** The array loop, from element `i` on, in element order. */
  function WalkItems(base: string, node: Json, i: nat, acc: View): View
    requires node.JArr? && i <= |node.items|
    decreases node, |node.items| - i
  {
    if i == |node.items| then acc
    else WalkItems(base, node, i + 1, Walk(ElementPath(base, i), node.items[i], acc))
  }

  /** The object loop, from field `j` on, in field iteration order. */
  function WalkFields(base: string, node: Json, j: nat, acc: View): View
    requires node.JObj? && j <= |node.fields|
    decreases node, |node.fields| - j
  {
    if j == |node.fields| then acc
    else
      var (name, child) := node.fields[j];
      WalkFields(base, node, j + 1, Walk(FieldPath(base, name), child, acc))
  }

  /** The public entry point without the object-to-tree conversion: walk
      from the empty path into a fresh map. */
  function Flatten(root: Json): View {
    Walk("", root, map[])
  }

  // ---------------------------------------------------------------------
  // Reference definition: the leaves in visiting order, as a list.
  // ---------------------------------------------------------------------

  /** Every store the walk performs, in order, as (path, text) pairs. */
  function Leaves(base: string, node: Json): seq<Entry>
    decreases node
  {
    match node
    case JArr(_) => ItemLeaves(base, node, 0)
    case JObj(_) => FieldLeaves(base, node, 0)
    case _ => if Render(node).Some? then [(base, Render(node).value)] else []
  }

  function ItemLeaves(base: string, node: Json, i: nat): seq<Entry>
    requires node.JArr? && i <= |node.items|
    decreases node, |node.items| - i
  {
    if i == |node.items| then []
    else Leaves(ElementPath(base, i), node.items[i]) + ItemLeaves(base, node, i + 1)
  }

  function FieldLeaves(base: string, node: Json, j: nat): seq<Entry>
    requires node.JObj? && j <= |node.fields|
    decreases node, |node.fields| - j
  {
    if j == |node.fields| then []
    else
      var (name, child) := node.fields[j];
      Leaves(FieldPath(base, name), child) + FieldLeaves(base, node, j + 1)
  }

  /** Number of boolean, number and text nodes in the tree. */
  function ScalarCount(node: Json): nat
    decreases node
  {
    match node
    case JArr(items) => ItemsScalarCount(node, 0)
    case JObj(fields) => FieldsScalarCount(node, 0)
    case _ => if Render(node).Some? then 1 else 0
  }

  function ItemsScalarCount(node: Json, i: nat): nat
    requires node.JArr? && i <= |node.items|
    decreases node, |node.items| - i
  {
    if i == |node.items| then 0 else ScalarCount(node.items[i]) + ItemsScalarCount(node, i + 1)
  }

  function FieldsScalarCount(node: Json, j: nat): nat
    requires node.JObj? && j <= |node.fields|
    decreases node, |node.fields| - j
  {
    if j == |node.fields| then 0 else ScalarCount(node.fields[j].1) + FieldsScalarCount(node, j + 1)
  }

  /** Applying a list of stores to a map, in order. */
  function PutAll(acc: View, entries: seq<Entry>): View
    decreases |entries|
  {
    if entries == [] then acc else PutAll(acc[entries[0].0 := entries[0].1], entries[1..])
  }

  /** The paths a list of stores writes to. */
  function PathsOf(entries: seq<Entry>): set<string> {
    set k | 0 <= k < |entries| :: entries[k].0
  }

  /** `k` is the last store to `p` in `entries`. */
  ghost predicate LastStore(entries: seq<Entry>, p: string, k: int) {
    0 <= k < |entries| && entries[k].0 == p
    && forall k' :: k < k' < |entries| ==> entries[k'].0 != p
  }

  // ---------------------------------------------------------------------
  // Lemmas
  // ---------------------------------------------------------------------

  lemma {:induction false} PutAllAppend(acc: View, a: seq<Entry>, b: seq<Entry>)
    ensures PutAll(acc, a + b) == PutAll(PutAll(acc, a), b)
    decreases |a|
  {
    if a == [] {
      assert a + b == b;
    } else {
      assert (a + b)[0] == a[0] && (a + b)[1..] == a[1..] + b;
      PutAllAppend(acc[a[0].0 := a[0].1], a[1..], b);
    }
  }

  lemma PathsOfCons(e: seq<Entry>)
    requires e != []
    ensures PathsOf(e) == {e[0].0} + PathsOf(e[1..])
  {
    forall p | p in PathsOf(e)
      ensures p in {e[0].0} + PathsOf(e[1..])
    {
      var k :| 0 <= k < |e| && e[k].0 == p;
      if k > 0 {
        assert e[1..][k - 1].0 == p;
      }
    }
    forall p | p in PathsOf(e[1..])
      ensures p in PathsOf(e)
    {
      var k :| 0 <= k < |e[1..]| && e[1..][k].0 == p;
      assert e[k + 1].0 == p;
    }
  }

  /** The stores land on exactly the paths they name, on top of `acc`. */
  lemma {:induction false} PutAllKeys(acc: View, entries: seq<Entry>)
    ensures PutAll(acc, entries).Keys == acc.Keys + PathsOf(entries)
    decreases |entries|
  {
    if entries != [] {
      PutAllKeys(acc[entries[0].0 := entries[0].1], entries[1..]);
      PathsOfCons(entries);
    }
  }

  /** A path that is stored to ends up holding its last store's text; a path
      that is not stored to keeps its value in `acc`. */
  lemma {:induction false} PutAllValue(acc: View, entries: seq<Entry>, p: string)
    ensures p !in PathsOf(entries) && p in acc ==> p in PutAll(acc, entries) && PutAll(acc, entries)[p] == acc[p]
    ensures forall k :: LastStore(entries, p, k) ==> p in PutAll(acc, entries) && PutAll(acc, entries)[p] == entries[k].1
    decreases |entries|
  {
    if entries != [] {
      var acc' := acc[entries[0].0 := entries[0].1];
      PutAllValue(acc', entries[1..], p);
      PutAllKeys(acc', entries[1..]);
      if p !in PathsOf(entries) {
        forall k | 0 <= k < |entries[1..]|
          ensures entries[1..][k].0 != p
        {
          assert entries[k + 1].0 != p;
        }
      }
      forall k | LastStore(entries, p, k)
        ensures p in PutAll(acc, entries) && PutAll(acc, entries)[p] == entries[k].1
      {
        if k > 0 {
          assert LastStore(entries[1..], p, k - 1);
        } else {
          forall k' | 0 <= k' < |entries[1..]|
            ensures entries[1..][k'].0 != p
          {
            assert entries[k' + 1].0 != p;
          }
          assert p !in PathsOf(entries[1..]);
        }
      }
    }
  }

  /** The walk performs exactly the stores `Leaves` lists, in that order. */
  lemma {:induction false} WalkIsPutAll(base: string, node: Json, acc: View)
    ensures Walk(base, node, acc) == PutAll(acc, Leaves(base, node))
    decreases node
  {
    match node
    case JArr(_) => WalkItemsIsPutAll(base, node, 0, acc);
    case JObj(_) => WalkFieldsIsPutAll(base, node, 0, acc);
    case _ =>
  }

  lemma {:induction false} WalkItemsIsPutAll(base: string, node: Json, i: nat, acc: View)
    requires node.JArr? && i <= |node.items|
    ensures WalkItems(base, node, i, acc) == PutAll(acc, ItemLeaves(base, node, i))
    decreases node, |node.items| - i
  {
    if i < |node.items| {
      var here := Leaves(ElementPath(base, i), node.items[i]);
      WalkIsPutAll(ElementPath(base, i), node.items[i], acc);
      WalkItemsIsPutAll(base, node, i + 1, Walk(ElementPath(base, i), node.items[i], acc));
      PutAllAppend(acc, here, ItemLeaves(base, node, i + 1));
    }
  }

  lemma {:induction false} WalkFieldsIsPutAll(base: string, node: Json, j: nat, acc: View)
    requires node.JObj? && j <= |node.fields|
    ensures WalkFields(base, node, j, acc) == PutAll(acc, FieldLeaves(base, node, j))
    decreases node, |node.fields| - j
  {
    if j < |node.fields| {
      var (name, child) := node.fields[j];
      var here := Leaves(FieldPath(base, name), child);
      WalkIsPutAll(FieldPath(base, name), child, acc);
      WalkFieldsIsPutAll(base, node, j + 1, Walk(FieldPath(base, name), child, acc));
      PutAllAppend(acc, here, FieldLeaves(base, node, j + 1));
    }
  }

  /** One store per boolean, number or text node, and none for anything
      else: null nodes, empty containers and other node kinds add nothing. */
  lemma {:induction false} LeavesCount(base: string, node: Json)
    ensures |Leaves(base, node)| == ScalarCount(node)
    decreases node
  {
    match node
    case JArr(_) => ItemLeavesCount(base, node, 0);
    case JObj(_) => FieldLeavesCount(base, node, 0);
    case _ =>
  }

  lemma {:induction false} ItemLeavesCount(base: string, node: Json, i: nat)
    requires node.JArr? && i <= |node.items|
    ensures |ItemLeaves(base, node, i)| == ItemsScalarCount(node, i)
    decreases node, |node.items| - i
  {
    if i < |node.items| {
      LeavesCount(ElementPath(base, i), node.items[i]);
      ItemLeavesCount(base, node, i + 1);
    }
  }

  lemma {:induction false} FieldLeavesCount(base: string, node: Json, j: nat)
    requires node.JObj? && j <= |node.fields|
    ensures |FieldLeaves(base, node, j)| == FieldsScalarCount(node, j)
    decreases node, |node.fields| - j
  {
    if j < |node.fields| {
      LeavesCount(FieldPath(base, node.fields[j].0), node.fields[j].1);
      FieldLeavesCount(base, node, j + 1);
    }
  }

  /** The flattened view holds exactly the paths of the tree's leaves, each
      with the text of the last leaf visited at that path. */
  lemma FlattenCharacterized(root: Json)
    ensures Flatten(root).Keys == PathsOf(Leaves("", root))
    ensures forall p, k :: LastStore(Leaves("", root), p, k) ==> Flatten(root)[p] == Leaves("", root)[k].1
  {
    WalkIsPutAll("", root, map[]);
    PutAllKeys(map[], Leaves("", root));
    forall p, k | LastStore(Leaves("", root), p, k)
      ensures Flatten(root)[p] == Leaves("", root)[k].1
    {
      PutAllValue(map[], Leaves("", root), p);
    }
  }

  /** Every stored text is the text of some leaf at that path. */
  lemma FlattenValuesFromLeaves(root: Json, p: string)
    requires p in Flatten(root)
    ensures (p, Flatten(root)[p]) in Leaves("", root)
  {
    FlattenCharacterized(root);
    var e := Leaves("", root);
    var k :| 0 <= k < |e| && e[k].0 == p;
    var last := LastIndexOf(e, p, k);
    assert e[last] == (p, Flatten(root)[p]);
  }

  /** The largest index at or after `k` storing to `p`. */
  function LastIndexOf(e: seq<Entry>, p: string, k: nat): (last: nat)
    requires k < |e| && e[k].0 == p
    ensures k <= last
    ensures LastStore(e, p, last)
    decreases |e| - k
  {
    if exists k' :: k < k' < |e| && e[k'].0 == p then
      var k' :| k < k' < |e| && e[k'].0 == p;
      LastIndexOf(e, p, k')
    else k
  }

  /** The view is empty exactly when the tree holds no boolean, number or
      text node; in general it has at most one entry per such node. */
  lemma FlattenSize(root: Json)
    ensures |Flatten(root)| <= ScalarCount(root)
    ensures Flatten(root) == map[] <==> ScalarCount(root) == 0
  {
    FlattenCharacterized(root);
    LeavesCount("", root);
    PathsOfSize(Leaves("", root));
  }

  lemma {:induction false} PathsOfSize(e: seq<Entry>)
    ensures |PathsOf(e)| <= |e|
    ensures PathsOf(e) == {} <==> e == []
    decreases |e|
  {
    if e != [] {
      PathsOfSize(e[1..]);
      PathsOfCons(e);
    }
  }

  /** The leaves of an array of leaf nodes are visited in element order,
      the element at position `i` under `<base>[i]`. */
  lemma {:induction false} ScalarArrayLeaves(base: string, items: seq<Json>, i: nat)
    requires i <= |items|
    requires forall k :: 0 <= k < |items| ==> Render(items[k]).Some?
    ensures ItemLeaves(base, JArr(items), i)
         == seq(|items| - i, k requires 0 <= k < |items| - i => (ElementPath(base, i + k), Render(items[i + k]).value))
    decreases |items| - i
  {
    if i < |items| {
      ScalarArrayLeaves(base, items, i + 1);
    }
  }

  /** A field whose value is null contributes exactly what an absent field
      does: nothing. */
  lemma NullFieldIsAbsent(base: string, fields: seq<(string, Json)>, name: string, rest: seq<(string, Json)>)
    ensures Leaves(base, JObj(fields + [(name, JNull)] + rest)) == Leaves(base, JObj(fields + rest))
  {
    var with := JObj(fields + [(name, JNull)] + rest);
    var without := JObj(fields + rest);
    FieldLeavesShift(base, with, without, |fields|);
    FieldLeavesPrefix(base, with, without, 0, |fields|);
  }

  /** Past the inserted null field, both objects visit the same fields. */
  lemma {:induction false} FieldLeavesShift(base: string, with: Json, without: Json, j: nat)
    requires with.JObj? && without.JObj?
    requires |with.fields| == |without.fields| + 1 && j < |with.fields|
    requires with.fields[j].1 == JNull
    requires forall k :: j < k < |with.fields| ==> with.fields[k] == without.fields[k - 1]
    ensures FieldLeaves(base, with, j) == FieldLeaves(base, without, j)
  {
    FieldLeavesTail(base, with, without, j + 1);
  }

  lemma {:induction false} FieldLeavesTail(base: string, with: Json, without: Json, j: nat)
    requires with.JObj? && without.JObj?
    requires |with.fields| == |without.fields| + 1 && 0 < j <= |with.fields|
    requires forall k :: j <= k < |with.fields| ==> with.fields[k] == without.fields[k - 1]
    ensures FieldLeaves(base, with, j) == FieldLeaves(base, without, j - 1)
    decreases |with.fields| - j
  {
    if j < |with.fields| {
      FieldLeavesTail(base, with, without, j + 1);
    }
  }

  /** Before the inserted null field, both objects visit the same fields. */
  lemma {:induction false} FieldLeavesPrefix(base: string, with: Json, without: Json, j: nat, n: nat)
    requires with.JObj? && without.JObj?
    requires j <= n < |with.fields| && n <= |without.fields|
    requires forall k :: 0 <= k < n ==> with.fields[k] == without.fields[k]
    requires FieldLeaves(base, with, n) == FieldLeaves(base, without, n)
    ensures FieldLeaves(base, with, j) == FieldLeaves(base, without, j)
    decreases n - j
  {
    if j < n {
      FieldLeavesPrefix(base, with, without, j + 1, n);
    }
  }
}
