/** `buildCategoryTree` (services/CategoryService.js): a map from id to a node with an empty
    `children` array, then one pass that pushes each category under its parent or into `roots`.
    Nodes are shared objects in the source; here a node's children and the roots are lists of ids
    into the node map. */
module CategoryForest {
  import opened Wrappers
  import opened Records
  import opened CategoryRepository
  import opened CategoryTree

  datatype TreeNode = TreeNode(category: Category, children: seq<int>)

  /** `roots`, and the `categoryMap` the nodes in it refer to. */
  datatype Forest = Forest(roots: seq<int>, nodes: map<int, TreeNode>)

  /** JavaScript falsiness of a `parentId` column: `null` or `0`. */
  predicate FalsyParent(p: Option<int>)
  {
    p.None? || p.value == 0
  }

  /** The ids of the categories with a falsy parent, in input order. */
  function RootIds(cats: seq<Category>): (r: seq<int>)
    ensures forall k :: k in r <==> exists c :: c in cats && FalsyParent(c.parentId) && c.id == k
  {
    if cats == [] then []
    else
      var c := cats[|cats| - 1];
      assert forall x :: x in cats <==> x in cats[..|cats| - 1] || x == c;
      RootIds(cats[..|cats| - 1]) + if FalsyParent(c.parentId) then [c.id] else []
  }

  /** The ids of the categories whose (truthy) parent is `k`, in input order. */
  function ChildIds(cats: seq<Category>, k: int): (r: seq<int>)
    ensures forall x :: x in r <==> exists c :: c in cats && !FalsyParent(c.parentId) && c.parentId.value == k && c.id == x
  {
    if cats == [] then []
    else
      var c := cats[|cats| - 1];
      assert forall x :: x in cats <==> x in cats[..|cats| - 1] || x == c;
      ChildIds(cats[..|cats| - 1], k) + if !FalsyParent(c.parentId) && c.parentId.value == k then [c.id] else []
  }

  /** The row `categoryMap` holds for `k`: `Map.set` keeps the last category with that id. */
  function LastWithId(cats: seq<Category>, k: int): (r: Option<Category>)
    ensures r.Some? <==> k in Ids(cats)
    ensures r.Some? ==> r.value in cats && r.value.id == k
  {
    if cats == [] then None
    else
      var c := cats[|cats| - 1];
      assert forall x :: x in cats <==> x in cats[..|cats| - 1] || x == c;
      if c.id == k then Some(c) else LastWithId(cats[..|cats| - 1], k)
  }

  lemma RootIdsStep(cats: seq<Category>, i: int)
    requires 0 <= i < |cats|
    ensures RootIds(cats[..i + 1]) == RootIds(cats[..i]) + if FalsyParent(cats[i].parentId) then [cats[i].id] else []
  {
    assert cats[..i + 1][..i] == cats[..i];
  }

  lemma ChildIdsStep(cats: seq<Category>, i: int, k: int)
    requires 0 <= i < |cats|
    ensures ChildIds(cats[..i + 1], k) ==
              ChildIds(cats[..i], k) + if !FalsyParent(cats[i].parentId) && cats[i].parentId.value == k then [cats[i].id] else []
  {
    assert cats[..i + 1][..i] == cats[..i];
  }

  lemma LastWithIdStep(cats: seq<Category>, i: int, k: int)
    requires 0 <= i < |cats|
    ensures LastWithId(cats[..i + 1], k) == if cats[i].id == k then Some(cats[i]) else LastWithId(cats[..i], k)
  {
    assert cats[..i + 1][..i] == cats[..i];
  }

  lemma WholePrefix(cats: seq<Category>)
    ensures cats[..|cats|] == cats
  {
  }

  /** `buildCategoryTree(categories)` */
  method BuildCategoryTree(cats: seq<Category>) returns (f: Forest)
    ensures f.roots == RootIds(cats)
    ensures f.nodes.Keys == Ids(cats)
    ensures forall k | k in f.nodes :: Some(f.nodes[k].category) == LastWithId(cats, k)
    ensures forall k | k in f.nodes :: f.nodes[k].children == ChildIds(cats, k)
  {
    var nodes := IndexById(cats);
    f := LinkChildren(cats, nodes);
  }

  /** The first pass: every category enters the map with an empty `children` array. */
  method IndexById(cats: seq<Category>) returns (nodes: map<int, TreeNode>)
    ensures nodes.Keys == Ids(cats)
    ensures forall k | k in nodes :: Some(nodes[k].category) == LastWithId(cats, k) && nodes[k].children == []
  {
    nodes := map[];
    for i := 0 to |cats|
      invariant nodes.Keys == Ids(cats[..i])
      invariant forall k | k in nodes :: Some(nodes[k].category) == LastWithId(cats[..i], k) && nodes[k].children == []
    {
      IdsStep(cats, i);
      forall k ensures LastWithId(cats[..i + 1], k) == if cats[i].id == k then Some(cats[i]) else LastWithId(cats[..i], k) {
        LastWithIdStep(cats, i, k);
      }
      nodes := nodes[cats[i].id := TreeNode(cats[i], [])];
    }
    WholePrefix(cats);
  }

  /** The second pass: each category is pushed onto its parent's `children` when its `parentId` is
      truthy and names a node, into `roots` when it is falsy, and nowhere otherwise. */
  method LinkChildren(cats: seq<Category>, nodes0: map<int, TreeNode>) returns (f: Forest)
    requires forall k | k in nodes0 :: nodes0[k].children == []
    ensures f.roots == RootIds(cats)
    ensures f.nodes.Keys == nodes0.Keys
    ensures forall k | k in f.nodes :: f.nodes[k].category == nodes0[k].category
    ensures forall k | k in f.nodes :: f.nodes[k].children == ChildIds(cats, k)
  {
    var nodes, roots := nodes0, [];
    for i := 0 to |cats|
      invariant nodes.Keys == nodes0.Keys
      invariant forall k | k in nodes :: nodes[k].category == nodes0[k].category
      invariant roots == RootIds(cats[..i])
      invariant forall k | k in nodes :: nodes[k].children == ChildIds(cats[..i], k)
    {
      RootIdsStep(cats, i);
      forall k ensures ChildIds(cats[..i + 1], k) ==
                         ChildIds(cats[..i], k) + if !FalsyParent(cats[i].parentId) && cats[i].parentId.value == k then [cats[i].id] else [] {
        ChildIdsStep(cats, i, k);
      }
      var c := cats[i];
      if !FalsyParent(c.parentId) {
        var p := c.parentId.value;
        if p in nodes {
          nodes := nodes[p := nodes[p].(children := nodes[p].children + [c.id])];
        }
      } else {
        roots := roots + [c.id];
      }
    }
    WholePrefix(cats);
    f := Forest(roots, nodes);
  }

  /** A category whose parent is not among the input is neither a root nor anyone's child: it is
      left out of the returned tree instead of being promoted to a root. */
  lemma OrphanOmitted(cats: seq<Category>, f: Forest, c: Category)
    requires DistinctIds(cats)
    requires f.roots == RootIds(cats) && f.nodes.Keys == Ids(cats)
    requires forall k | k in f.nodes :: f.nodes[k].children == ChildIds(cats, k)
    requires c in cats && !FalsyParent(c.parentId) && c.parentId.value !in Ids(cats)
    ensures c.id !in f.roots
    ensures forall k | k in f.nodes :: c.id !in f.nodes[k].children
  {
    forall d | d in cats && d.id == c.id ensures d == c {
      var i :| 0 <= i < |cats| && cats[i] == d;
      var j :| 0 <= j < |cats| && cats[j] == c;
      assert i == j;
    }
  }
}
