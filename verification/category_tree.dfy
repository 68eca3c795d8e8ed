/** The category hierarchy as services/CategoryService.js walks it: acyclicity of the live parent
    relation, and the descendants `getAllSubcategories` collects. */
module CategoryTree {
  import opened Wrappers
  import opened Records
  import opened Database
  import opened CategoryRepository

  /** `rank` witnesses that the parent relation restricted to rows that are not soft-deleted has no
      cycle: every such row ranks strictly below its parent. `findChildren` skips soft-deleted rows,
      so this is exactly what the recursive walk over children needs to terminate. */
  ghost predicate Ranked(t: seq<Category>, rank: map<int, nat>)
  {
    && (forall x | x in t :: x.id in rank)
    && (forall x | x in t && !x.isDeleted && x.parentId.Some? && x.parentId.value in rank ::
          rank[x.id] < rank[x.parentId.value])
  }

  /** Some ranking exists: the tree has no cycle through rows that are not soft-deleted. */
  ghost predicate Acyclic(t: seq<Category>)
  {
    exists rank :: Ranked(t, rank)
  }

  /** A live row that is its own parent admits no ranking. */
  lemma SelfLoopUnranked(t: seq<Category>, rank: map<int, nat>, x: Category)
    requires x in t && !x.isDeleted && x.parentId == Some(x.id)
    ensures !Ranked(t, rank)
  {
  }

  function Ids(s: seq<Category>): set<int>
  {
    set x | x in s :: x.id
  }

  /** What `getAllSubcategories(c)` returns: each live child of `c` in id order, each immediately
      followed by its own descendants (pre-order). */
  ghost function Desc(t: seq<Category>, rank: map<int, nat>, c: int): seq<Category>
    requires Ranked(t, rank) && c in rank
    decreases rank[c] + 1, 0
  {
    DescList(t, rank, FindChildren(t, c), rank[c])
  }

  /** The loop of `getAllSubcategories` over the children `cs`: after each child, its descendants. */
  ghost function DescList(t: seq<Category>, rank: map<int, nat>, cs: seq<Category>, bound: nat): seq<Category>
    requires Ranked(t, rank)
    requires forall x | x in cs :: x in t && x.id in rank && rank[x.id] < bound
    decreases bound, |cs|
  {
    if cs == [] then []
    else
      var last := cs[|cs| - 1];
      DescList(t, rank, cs[..|cs| - 1], bound) + [last] + Desc(t, rank, last.id)
  }

  lemma SameId(t: seq<Category>, x: Category, y: Category)
    requires CategoriesWellFormed(t) && x in t && y in t && x.id == y.id
    ensures x == y
  {
    var i :| 0 <= i < |t| && t[i] == x;
    var j :| 0 <= j < |t| && t[j] == y;
  }

  lemma {:induction false} DescListMember(t: seq<Category>, rank: map<int, nat>, cs: seq<Category>, bound: nat, z: Category)
    requires Ranked(t, rank)
    requires forall x | x in cs :: x in t && x.id in rank && rank[x.id] < bound
    ensures z in DescList(t, rank, cs, bound) <==> exists x :: x in cs && (z == x || z in Desc(t, rank, x.id))
    decreases |cs|
  {
    if cs != [] {
      var front, last := cs[..|cs| - 1], cs[|cs| - 1];
      assert cs == front + [last];
      DescListMember(t, rank, front, bound, z);
    }
  }

  /** One more iteration of the loop over the children. */
  lemma DescListStep(t: seq<Category>, rank: map<int, nat>, cs: seq<Category>, bound: nat, k: int)
    requires Ranked(t, rank) && 0 <= k < |cs|
    requires forall x | x in cs :: x in t && x.id in rank && rank[x.id] < bound
    ensures DescList(t, rank, cs[..k + 1], bound) == DescList(t, rank, cs[..k], bound) + [cs[k]] + Desc(t, rank, cs[k].id)
  {
    assert cs[..k + 1][..k] == cs[..k];
  }

  lemma IdsStep(cs: seq<Category>, k: int)
    requires 0 <= k < |cs|
    ensures Ids(cs[..k + 1]) == Ids(cs[..k]) + {cs[k].id}
  {
    assert cs[..k + 1] == cs[..k] + [cs[k]];
  }

  lemma IdsAll(cs: seq<Category>)
    ensures Ids(cs[..|cs|]) == Ids(cs)
  {
    assert cs[..|cs|] == cs;
  }

  /** A descendant's id names a row of the table. */
  lemma DescInRange(t: seq<Category>, rank: map<int, nat>, c: int, z: Category)
    requires CategoriesWellFormed(t) && Ranked(t, rank) && c in rank
    requires z in Desc(t, rank, c)
    ensures 1 <= z.id <= |t| && t[z.id - 1] == z
  {
    DescInTable(t, rank, c, z);
    var i :| 0 <= i < |t| && t[i] == z;
  }

  /** Every descendant is a live row, has a parent, and ranks below the category it descends from. */
  lemma {:induction false} DescInTable(t: seq<Category>, rank: map<int, nat>, c: int, z: Category)
    requires Ranked(t, rank) && c in rank
    requires z in Desc(t, rank, c)
    ensures z in t && !z.isDeleted && z.parentId.Some? && z.id in rank && rank[z.id] < rank[c]
    decreases rank[c]
  {
    var cs := FindChildren(t, c);
    DescListMember(t, rank, cs, rank[c], z);
    var x :| x in cs && (z == x || z in Desc(t, rank, x.id));
    if z != x {
      DescInTable(t, rank, x.id, z);
    }
  }

  /** A descendant's descendants are descendants. */
  lemma {:induction false} DescTrans(t: seq<Category>, rank: map<int, nat>, c: int, y: Category, z: Category)
    requires Ranked(t, rank) && c in rank && y.id in rank
    requires y in Desc(t, rank, c) && z in Desc(t, rank, y.id)
    ensures z in Desc(t, rank, c)
    decreases rank[c]
  {
    var cs := FindChildren(t, c);
    DescListMember(t, rank, cs, rank[c], y);
    var x :| x in cs && (y == x || y in Desc(t, rank, x.id));
    if y != x {
      DescTrans(t, rank, x.id, y, z);
    }
    DescListMember(t, rank, cs, rank[c], z);
  }

  /** Upward closure: the parent of a descendant of `c` is `c` or another descendant of `c`. */
  lemma {:induction false} DescParent(t: seq<Category>, rank: map<int, nat>, c: int, z: Category)
    requires Ranked(t, rank) && c in rank
    requires z in Desc(t, rank, c)
    ensures z.parentId.Some?
    ensures z.parentId.value == c || z.parentId.value in Ids(Desc(t, rank, c))
    decreases rank[c]
  {
    var cs := FindChildren(t, c);
    DescListMember(t, rank, cs, rank[c], z);
    var x :| x in cs && (z == x || z in Desc(t, rank, x.id));
    if z != x {
      DescParent(t, rank, x.id, z);
      DescListMember(t, rank, cs, rank[c], x);
      var q := z.parentId.value;
      if q != x.id {
        var w :| w in Desc(t, rank, x.id) && w.id == q;
        DescInTable(t, rank, x.id, w);
        DescTrans(t, rank, c, x, w);
      }
    }
  }

  /** Downward closure: a live row whose parent is `c` or a descendant of `c` is a descendant. */
  lemma DescClosed(t: seq<Category>, rank: map<int, nat>, c: int, z: Category)
    requires Ranked(t, rank) && c in rank
    requires z in t && !z.isDeleted && z.parentId.Some?
    requires z.parentId.value == c || z.parentId.value in Ids(Desc(t, rank, c))
    ensures z in Desc(t, rank, c)
  {
    var q := z.parentId.value;
    if q == c {
      DescListMember(t, rank, FindChildren(t, c), rank[c], z);
    } else {
      var y :| y in Desc(t, rank, c) && y.id == q;
      DescInTable(t, rank, c, y);
      DescListMember(t, rank, FindChildren(t, q), rank[q], z);
      DescTrans(t, rank, c, y, z);
    }
  }

  /** The descendants of `c` are exactly the live rows whose parent is `c` or one of them. */
  lemma DescMembership(t: seq<Category>, rank: map<int, nat>, c: int, z: Category)
    requires Ranked(t, rank) && c in rank
    ensures z in Desc(t, rank, c) <==>
              z in t && !z.isDeleted && z.parentId.Some?
              && (z.parentId.value == c || z.parentId.value in Ids(Desc(t, rank, c)))
  {
    if z in Desc(t, rank, c) {
      DescInTable(t, rank, c, z);
      DescParent(t, rank, c, z);
    } else if z in t && !z.isDeleted && z.parentId.Some?
              && (z.parentId.value == c || z.parentId.value in Ids(Desc(t, rank, c))) {
      DescClosed(t, rank, c, z);
    }
  }

  /** `c` is never among its own descendants. */
  lemma NotOwnDescendant(t: seq<Category>, rank: map<int, nat>, c: int)
    requires Ranked(t, rank) && c in rank
    ensures c !in Ids(Desc(t, rank, c))
  {
    if c in Ids(Desc(t, rank, c)) {
      var z :| z in Desc(t, rank, c) && z.id == c;
      DescInTable(t, rank, c, z);
    }
  }

  /** The subtrees under two categories neither of which descends from the other are disjoint. */
  lemma {:induction false} Disjoint(t: seq<Category>, rank: map<int, nat>, a: int, b: int, z: Category)
    requires CategoriesWellFormed(t) && Ranked(t, rank) && a in rank && b in rank && a != b
    requires a !in Ids(Desc(t, rank, b)) && b !in Ids(Desc(t, rank, a))
    requires z in t && z in Desc(t, rank, a)
    ensures z !in Desc(t, rank, b)
    decreases if z.id in rank && rank[z.id] <= rank[a] then rank[a] - rank[z.id] else 0
  {
    DescInTable(t, rank, a, z);
    if z in Desc(t, rank, b) {
      DescParent(t, rank, a, z);
      DescParent(t, rank, b, z);
      var q := z.parentId.value;
      if q != a && q != b {
        var y :| y in Desc(t, rank, a) && y.id == q;
        var y' :| y' in Desc(t, rank, b) && y'.id == q;
        DescInTable(t, rank, a, y);
        DescInTable(t, rank, b, y');
        SameId(t, y, y');
        Disjoint(t, rank, a, b, y);
      }
    }
  }

  /** Two id-distinct lists whose ids do not meet concatenate to an id-distinct list. */
  lemma ConcatDistinct(a: seq<Category>, b: seq<Category>)
    requires DistinctIds(a) && DistinctIds(b)
    requires forall x, y | x in a && y in b :: x.id != y.id
    ensures DistinctIds(a + b)
  {
    forall i, j | 0 <= i < j < |a + b| ensures (a + b)[i].id != (a + b)[j].id {
      if j < |a| {
        assert (a + b)[i] == a[i] && (a + b)[j] == a[j];
      } else if i < |a| {
        assert (a + b)[i] in a && (a + b)[j] in b;
      } else {
        assert (a + b)[i] == b[i - |a|] && (a + b)[j] == b[j - |a|];
      }
    }
  }

  /** Nothing collected under the earlier siblings shares an id with the last sibling or with
      anything under it. */
  lemma FrontApart(t: seq<Category>, rank: map<int, nat>, c: int, front: seq<Category>, last: Category, z: Category)
    requires CategoriesWellFormed(t) && Ranked(t, rank) && c in rank
    requires forall x | x in front + [last] :: x in t && x.parentId == Some(c) && !x.isDeleted
    requires DistinctIds(front + [last])
    requires z in DescList(t, rank, front, rank[c])
    ensures last.id in rank
    ensures forall y | y in [last] + Desc(t, rank, last.id) :: y.id != z.id
  {
    var cs := front + [last];
    assert last in cs;
    var d := Desc(t, rank, last.id);
    DescListMember(t, rank, front, rank[c], z);
    var x :| x in front && (z == x || z in Desc(t, rank, x.id));
    var i :| 0 <= i < |front| && front[i] == x;
    assert x in cs;
    assert x.id != last.id by { assert cs[i] == x && cs[|cs| - 1] == last; }
    if z == x {
      if x in d {
        DescParent(t, rank, last.id, x);
        Above(t, rank, last.id, c);
      }
    } else {
      DescInTable(t, rank, x.id, z);
      if z.id == last.id {
        SameId(t, z, last);
        DescParent(t, rank, x.id, last);
        Above(t, rank, x.id, c);
      }
      SiblingsUnrelated(t, rank, c, x, last);
      Disjoint(t, rank, x.id, last.id, z);
    }
    DescListInTable(t, rank, front, rank[c], z);
    forall y | y in [last] + d ensures y.id != z.id {
      if y in d && y.id == z.id {
        DescInTable(t, rank, last.id, y);
        SameId(t, z, y);
      }
    }
  }

  lemma {:induction false} DescListDistinct(t: seq<Category>, rank: map<int, nat>, c: int, cs: seq<Category>)
    requires CategoriesWellFormed(t) && Ranked(t, rank) && c in rank
    requires forall x | x in cs :: x in t && x.parentId == Some(c) && !x.isDeleted
    requires DistinctIds(cs)
    ensures DistinctIds(DescList(t, rank, cs, rank[c]))
    decreases rank[c], |cs|
  {
    if cs != [] {
      var front, last := cs[..|cs| - 1], cs[|cs| - 1];
      assert cs == front + [last];
      DescListDistinct(t, rank, c, front);
      assert last in cs;
      var a := DescList(t, rank, front, rank[c]);
      var d := Desc(t, rank, last.id);
      assert last in t && last.parentId == Some(c) && !last.isDeleted;
      assert rank[last.id] < rank[c];
      LastPartDistinct(t, rank, last);
      forall z | z in a ensures forall y | y in [last] + d :: y.id != z.id {
        FrontApart(t, rank, c, front, last, z);
      }
      ConcatDistinct(a, [last] + d);
      assert DescList(t, rank, cs, rank[c]) == a + ([last] + d);
    }
  }

  /** A child followed by its own descendants repeats no id. */
  lemma LastPartDistinct(t: seq<Category>, rank: map<int, nat>, last: Category)
    requires CategoriesWellFormed(t) && Ranked(t, rank) && last in t
    ensures last.id in rank && DistinctIds([last] + Desc(t, rank, last.id))
    decreases rank[last.id], |FindChildren(t, last.id)| + 2
  {
    DescDistinctFrom(t, rank, last.id);
    var d := Desc(t, rank, last.id);
    forall z | z in d ensures z.id != last.id {
      DescInTable(t, rank, last.id, z);
    }
    ConcatDistinct([last], d);
  }

  lemma DescListInTable(t: seq<Category>, rank: map<int, nat>, cs: seq<Category>, bound: nat, z: Category)
    requires Ranked(t, rank)
    requires forall x | x in cs :: x in t && x.id in rank && rank[x.id] < bound
    requires z in DescList(t, rank, cs, bound)
    ensures z in t
  {
    DescListMember(t, rank, cs, bound, z);
    var x :| x in cs && (z == x || z in Desc(t, rank, x.id));
    if z != x {
      DescInTable(t, rank, x.id, z);
    }
  }

  /** A category is not a descendant of one of its own descendants or children: a child `a` of `c`
      never has `c` at or below it. */
  lemma Above(t: seq<Category>, rank: map<int, nat>, a: int, c: int)
    requires Ranked(t, rank) && a in rank && c in rank && rank[a] < rank[c]
    ensures a != c && c !in Ids(Desc(t, rank, a))
  {
    if c in Ids(Desc(t, rank, a)) {
      var w :| w in Desc(t, rank, a) && w.id == c;
      DescInTable(t, rank, a, w);
    }
  }

  lemma SiblingsUnrelated(t: seq<Category>, rank: map<int, nat>, c: int, x: Category, y: Category)
    requires CategoriesWellFormed(t) && Ranked(t, rank) && c in rank
    requires x in t && y in t && x.id != y.id
    requires x.parentId == Some(c) && !x.isDeleted && y.parentId == Some(c) && !y.isDeleted
    ensures x.id in rank && y.id in rank
    ensures x.id !in Ids(Desc(t, rank, y.id)) && y.id !in Ids(Desc(t, rank, x.id))
  {
    if x.id in Ids(Desc(t, rank, y.id)) {
      var w :| w in Desc(t, rank, y.id) && w.id == x.id;
      DescInTable(t, rank, y.id, w);
      SameId(t, w, x);
      DescParent(t, rank, y.id, x);
      Above(t, rank, y.id, c);
    }
    if y.id in Ids(Desc(t, rank, x.id)) {
      var w :| w in Desc(t, rank, x.id) && w.id == y.id;
      DescInTable(t, rank, x.id, w);
      SameId(t, w, y);
      DescParent(t, rank, x.id, y);
      Above(t, rank, x.id, c);
    }
  }

  /** `getAllSubcategories` lists every descendant once. */
  lemma DescDistinctFrom(t: seq<Category>, rank: map<int, nat>, c: int)
    requires CategoriesWellFormed(t) && Ranked(t, rank) && c in rank
    ensures DistinctIds(Desc(t, rank, c))
    decreases rank[c], |FindChildren(t, c)| + 1
  {
    WellFormedDistinct(t);
    DescListDistinct(t, rank, c, FindChildren(t, c));
  }

  // ---------------------------------------------------------------------------------------------
  // Keeping a ranking across writes
  // ---------------------------------------------------------------------------------------------

  /** After a create every old rank moves up by one and the new row, a leaf, gets rank 0. */
  function ShiftRank(rank: map<int, nat>, newId: int): (r: map<int, nat>)
    ensures r.Keys == rank.Keys + {newId} && r[newId] == 0
    ensures forall k | k in rank && k != newId :: r[k] == rank[k] + 1
  {
    (map k | k in rank :: rank[k] + 1)[newId := 0]
  }

  /** After a re-parent the moved subtree `keep` keeps its ranks and everything else moves above it. */
  function Rerank(rank: map<int, nat>, keep: set<int>, lift: nat): (r: map<int, nat>)
    ensures r.Keys == rank.Keys
    ensures forall k | k in rank :: r[k] == if k in keep then rank[k] else rank[k] + lift
  {
    map k | k in rank :: if k in keep then rank[k] else rank[k] + lift
  }

  lemma IdInRank(t: seq<Category>, rank: map<int, nat>, k: int)
    requires CategoriesWellFormed(t) && Ranked(t, rank) && 1 <= k <= |t|
    ensures k in rank
  {
    assert t[k - 1] in t;
  }

  /** Appending a row whose parent is an existing row keeps the tree acyclic. */
  lemma RankedAfterCreate(t: seq<Category>, rank: map<int, nat>, row: Category)
    requires CategoriesWellFormed(t) && Ranked(t, rank)
    requires row.id == |t| + 1 && (row.parentId.Some? ==> 1 <= row.parentId.value <= |t|)
    ensures Ranked(t + [row], ShiftRank(rank, row.id))
  {
    var t', r' := t + [row], ShiftRank(rank, row.id);
    forall x | x in t' && !x.isDeleted && x.parentId.Some? && x.parentId.value in r'
      ensures r'[x.id] < r'[x.parentId.value]
    {
      var p := x.parentId.value;
      if x == row {
        IdInRank(t, rank, p);
      } else {
        var i :| 0 <= i < |t| && t[i] == x;
        IdInRank(t, rank, p);
      }
    }
  }

  /** A write that keeps every row's id, only soft-deletes rows or clears or keeps their parents,
      keeps any ranking. */
  lemma RankedTransfer(t: seq<Category>, t': seq<Category>, rank: map<int, nat>)
    requires Ranked(t, rank) && |t'| == |t|
    requires forall i | 0 <= i < |t| :: t'[i].id == t[i].id
    requires forall i | 0 <= i < |t| && !t'[i].isDeleted ::
               !t[i].isDeleted && (t'[i].parentId == t[i].parentId || t'[i].parentId.None?)
    ensures Ranked(t', rank)
  {
    forall x | x in t' ensures x.id in rank {
      var i :| 0 <= i < |t'| && t'[i] == x;
      assert t[i] in t;
    }
    forall x | x in t' && !x.isDeleted && x.parentId.Some? && x.parentId.value in rank
      ensures rank[x.id] < rank[x.parentId.value]
    {
      var i :| 0 <= i < |t'| && t'[i] == x;
      assert t[i] in t;
    }
  }

  /** Rewriting row `c` without giving it a new parent keeps any ranking. */
  lemma RankedAfterRewrite(t: seq<Category>, rank: map<int, nat>, c: int, row: Category)
    requires Ranked(t, rank) && 1 <= c <= |t| && row.id == t[c - 1].id
    requires !row.isDeleted ==> !t[c - 1].isDeleted && (row.parentId == t[c - 1].parentId || row.parentId.None?)
    ensures Ranked(t[c - 1 := row], rank)
  {
    RankedTransfer(t, t[c - 1 := row], rank);
  }

  /** Moving category `c` under a parent outside its subtree keeps the tree acyclic: the subtree
      keeps its ranks and every other row is lifted above `c`. */
  lemma RankedAfterReparent(t: seq<Category>, rank: map<int, nat>, c: int, row: Category)
    requires CategoriesWellFormed(t) && Ranked(t, rank) && 1 <= c <= |t|
    requires row.id == c && row.isDeleted == t[c - 1].isDeleted
    requires row.parentId.Some? && 1 <= row.parentId.value <= |t| && row.parentId.value != c
    requires c in rank && row.parentId.value !in Ids(Desc(t, rank, c))
    ensures Ranked(t[c - 1 := row], Rerank(rank, {c} + Ids(Desc(t, rank, c)), rank[c] + 1))
  {
    var keep := {c} + Ids(Desc(t, rank, c));
    var t', r' := t[c - 1 := row], Rerank(rank, keep, rank[c] + 1);
    forall x | x in t' ensures x.id in r' {
      var i :| 0 <= i < |t'| && t'[i] == x;
      assert t[i] in t;
    }
    forall x | x in t' && !x.isDeleted && x.parentId.Some? && x.parentId.value in r'
      ensures r'[x.id] < r'[x.parentId.value]
    {
      var i :| 0 <= i < |t'| && t'[i] == x;
      var q := x.parentId.value;
      if i == c - 1 {
        assert x == row;
      } else {
        assert x == t[i] && x in t && x.id != c;
        if x.id in keep {
          var y :| y in Desc(t, rank, c) && y.id == x.id;
          DescInTable(t, rank, c, y);
          SameId(t, x, y);
          DescParent(t, rank, c, x);
          assert q in keep;
        } else if q in keep {
          DescClosed(t, rank, c, x);
          assert false;
        }
      }
    }
  }

  // ---------------------------------------------------------------------------------------------
  // Live rows hang under live rows
  // ---------------------------------------------------------------------------------------------

  /** Every live row that has a parent has a live parent. With this, the live rows form a forest
      of their own and no chain of parents leaves them. */
  ghost predicate LiveParents(t: seq<Category>)
  {
    forall i, j | 0 <= i < |t| && 0 <= j < |t| && !t[i].isDeleted && t[i].parentId == Some(j + 1) ::
      !t[j].isDeleted
  }

  /** The `k`-th ancestor of category `c`, following `parentId` through every row, deleted or not. */
  function Ancestor(t: seq<Category>, c: int, k: nat): Option<int>
  {
    if k == 0 then Some(c)
    else
      match Ancestor(t, c, k - 1)
      case None => None
      case Some(a) => if 1 <= a <= |t| then t[a - 1].parentId else None
  }

  /** The part of `CategoriesWellFormed` a walk up the parents needs: ids by position and parents
      in range. */
  ghost predicate Linked(t: seq<Category>)
  {
    forall i | 0 <= i < |t| :: t[i].id == i + 1 && (t[i].parentId.Some? ==> 1 <= t[i].parentId.value <= |t|)
  }

  /** One step up from a live row leads to a live row of strictly higher rank. */
  lemma LiveParentAbove(t: seq<Category>, rank: map<int, nat>, a: int)
    requires Linked(t) && Ranked(t, rank) && LiveParents(t)
    requires 1 <= a <= |t| && !t[a - 1].isDeleted && t[a - 1].parentId.Some?
    ensures var p := t[a - 1].parentId.value;
            1 <= p <= |t| && !t[p - 1].isDeleted && a in rank && p in rank && rank[a] < rank[p]
  {
    var x, p := t[a - 1], t[a - 1].parentId.value;
    assert x in t;
    assert !t[p - 1].isDeleted;
    assert t[p - 1] in t;
  }

  /** Every ancestor of a live row is a live row of strictly higher rank. */
  lemma {:induction false} LiveAncestorsAbove(t: seq<Category>, rank: map<int, nat>, c: int, k: nat)
    requires Linked(t) && Ranked(t, rank) && LiveParents(t)
    requires 1 <= c <= |t| && !t[c - 1].isDeleted
    ensures var a := Ancestor(t, c, k);
            a.Some? ==> && 1 <= a.value <= |t| && !t[a.value - 1].isDeleted
                        && c in rank && a.value in rank && (k > 0 ==> rank[c] < rank[a.value])
    decreases k
  {
    assert t[c - 1] in t;
    if k > 0 {
      LiveAncestorsAbove(t, rank, c, k - 1);
      var a := Ancestor(t, c, k - 1);
      if a.Some? {
        assert Ancestor(t, c, k) == t[a.value - 1].parentId;
        if t[a.value - 1].parentId.Some? {
          LiveParentAbove(t, rank, a.value);
        }
      }
    }
  }

  /** Under `LiveParents` no live category is its own ancestor: the live rows hold no cycle, however
      the deleted rows are linked. */
  lemma LiveNeverOwnAncestor(t: seq<Category>, rank: map<int, nat>, c: int, k: nat)
    requires CategoriesWellFormed(t) && Ranked(t, rank) && LiveParents(t)
    requires 1 <= c <= |t| && !t[c - 1].isDeleted && k > 0
    ensures Ancestor(t, c, k) != Some(c)
  {
    LiveAncestorsAbove(t, rank, c, k);
  }

  /** Appending a row whose parent, if any, is a live row keeps `LiveParents`. */
  lemma LiveParentsAfterCreate(t: seq<Category>, row: Category)
    requires CategoriesWellFormed(t) && LiveParents(t)
    requires row.parentId.Some? && 1 <= row.parentId.value <= |t| ==> !t[row.parentId.value - 1].isDeleted
    requires row.parentId.Some? ==> 1 <= row.parentId.value <= |t|
    ensures LiveParents(t + [row])
  {
    var t' := t + [row];
    forall i, j | 0 <= i < |t'| && 0 <= j < |t'| && !t'[i].isDeleted && t'[i].parentId == Some(j + 1)
      ensures !t'[j].isDeleted
    {
      if i < |t| {
        assert t'[i] == t[i];
      }
    }
  }

  /** Rewriting row `c` without changing whether it is deleted, and with a parent that is live or
      unchanged or cleared, keeps `LiveParents`. */
  lemma LiveParentsAfterRewrite(t: seq<Category>, c: int, row: Category)
    requires LiveParents(t) && 1 <= c <= |t| && row.isDeleted == t[c - 1].isDeleted
    requires !row.isDeleted && row.parentId.Some? && 1 <= row.parentId.value <= |t| ==>
               !t[row.parentId.value - 1].isDeleted || row.parentId == t[c - 1].parentId
    ensures LiveParents(t[c - 1 := row])
  {
  }
}
