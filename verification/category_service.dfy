/** services/CategoryService.js: the guards around the category repository, the recursive
    descendant walk, the cascading soft delete, and the tree returned to the client. Every error the
    service raises is rethrown with a prefix naming the operation. */
module CategoryService {
  import opened Wrappers
  import opened Js
  import opened Records
  import opened Database
  import opened CategoryRepository
  import opened CategoryTree
  import opened CategoryForest

  const CreatePrefix := "Error creating category: "
  const FetchPrefix := "Error fetching category: "
  const UpdatePrefix := "Error updating category: "
  const DeletePrefix := "Error deleting category: "

  const DuplicateName := "Bu isimde bir kategori zaten mevcut"
  const ParentNotFound := "Üst kategori bulunamadı"
  const NotFound := "Category not found"
  const SelfParent := "Kategori kendisini üst kategori olarak alamaz"
  const DescendantParent := "Alt kategori, üst kategori olarak atanamaz"

  /** Some live category's name contains `name`, ignoring case: what `findByName` reports. */
  predicate NameTaken(t: seq<Category>, name: string)
  {
    exists x :: x in t && !x.isDeleted && ContainsIgnoreCase(x.name, name)
  }

  /** What `createCategory(data)` answers. As written the parent only has to exist; when
      `corrected` holds a soft-deleted parent is refused as well, which keeps every live category
      under live categories. */
  function CreateVerdict(t: seq<Category>, data: NewCategory, corrected: bool): (r: Result<Category>)
    requires CategoriesWellFormed(t)
    ensures r.Ok? <==> && !NameTaken(t, data.name)
                       && (forall x | x in t :: x.name != data.name)
                       && (data.parentId.Value? ==> 1 <= data.parentId.n <= |t|)
                       && (corrected && Truthy(data.parentId) && 1 <= data.parentId.n <= |t| ==>
                             !t[data.parentId.n - 1].isDeleted)
    ensures r.Ok? ==> r == CreateOutcome(t, data)
    ensures r.Err? ==> StartsWith(r.msg, CreatePrefix)
  {
    if FindByName(t, data.name).Some? then Err(CreatePrefix + DuplicateName)
    else if Truthy(data.parentId) && !ParentUsable(t, data.parentId.n, corrected) then Err(CreatePrefix + ParentNotFound)
    else Rethrow(CreatePrefix, CreateOutcome(t, data))
  }

  /** The parent check of both guards: the row exists and, when `requireLive` holds, is not
      soft-deleted. */
  predicate ParentUsable(t: seq<Category>, p: int, requireLive: bool)
    requires CategoriesWellFormed(t)
  {
    FindById(t, p).Some? && (requireLive ==> !FindById(t, p).value.isDeleted)
  }

  /** What `getCategoryById(id)` answers for the raw route parameter `id`; soft-deleted rows are found. */
  function GetCategoryById(t: seq<Category>, id: string): (r: Result<Category>)
    requires CategoriesWellFormed(t)
    ensures r.Ok? <==> ParseInt(id).Some? && 1 <= ParseInt(id).value <= |t|
    ensures r.Ok? ==> r.value in t && r.value.id == ParseInt(id).value
    ensures r.Err? ==> StartsWith(r.msg, FetchPrefix)
  {
    match ParseInt(id)
    case None => Err(FetchPrefix + InvalidArgument)
    case Some(n) =>
      match FindById(t, n)
      case None => Err(FetchPrefix + NotFound)
      case Some(category) => Ok(category)
  }

  /** The guard `data.parentId && data.parentId !== category.parentId`. */
  predicate ParentChanges(category: Category, patch: CategoryPatch)
  {
    Truthy(patch.parentId) && Some(patch.parentId.n) != category.parentId
  }

  /** The guard `data.name && data.name !== category.name`. */
  predicate NameChanges(category: Category, patch: CategoryPatch)
  {
    patch.name.Some? && patch.name.value != "" && patch.name.value != category.name
  }

  /** The guards `updateCategory` runs once row `n` is found, in order: the rename check, then,
      when the parent changes, the self-parent check against `selfKey`, the descendant check and
      the parent's existence (and, when `requireLive` holds, that it is not soft-deleted). The
      message of the first that fails, if any. */
  ghost function UpdateGuards(t: seq<Category>, rank: map<int, nat>, n: int, patch: CategoryPatch, selfKey: JsValue,
                              requireLive: bool): (m: Option<string>)
    requires CategoriesWellFormed(t) && Ranked(t, rank) && 1 <= n <= |t|
    ensures m.None? <==>
              && (NameChanges(t[n - 1], patch) ==> !NameTaken(t, patch.name.value))
              && (ParentChanges(t[n - 1], patch) ==>
                    && !StrictEquals(Number(patch.parentId.n), selfKey)
                    && n in rank && patch.parentId.n !in Ids(Desc(t, rank, n))
                    && 1 <= patch.parentId.n <= |t|
                    && (requireLive ==> !t[patch.parentId.n - 1].isDeleted))
    ensures m.Some? ==> m.value in {DuplicateName, SelfParent, DescendantParent, ParentNotFound}
  {
    var category := t[n - 1];
    if NameChanges(category, patch) && FindByName(t, patch.name.value).Some? then Some(DuplicateName)
    else if !ParentChanges(category, patch) then None
    else
      var p := patch.parentId.n;
      IdInRank(t, rank, n);
      if StrictEquals(Number(p), selfKey) then Some(SelfParent)
      else if p in Ids(Desc(t, rank, n)) then Some(DescendantParent)
      else if !ParentUsable(t, p, requireLive) then Some(ParentNotFound)
      else None
  }

  /** What `updateCategory(id, data)` answers for the raw route parameter `id`. When `corrected`
      is false this is the code as written: the self-parent guard compares `data.parentId` with
      the string `id` and never fires, and a soft-deleted parent is accepted. When it is true the
      guard compares with the parsed id and the parent must be live. */
  ghost function UpdateVerdict(t: seq<Category>, rank: map<int, nat>, id: string, patch: CategoryPatch, corrected: bool): (r: Result<Category>)
    requires CategoriesWellFormed(t) && Ranked(t, rank)
    ensures r.Ok? ==> && ParseInt(id).Some? && 1 <= ParseInt(id).value <= |t|
                      && UpdateGuards(t, rank, ParseInt(id).value, patch, SelfKey(id, corrected), corrected).None?
                      && r.value == Patched(t[ParseInt(id).value - 1], patch)
                      && CategoriesWellFormed(t[ParseInt(id).value - 1 := r.value])
    ensures r.Err? ==> StartsWith(r.msg, UpdatePrefix)
    ensures ParseInt(id).None? ==> r == Err(UpdatePrefix + InvalidArgument)
    ensures ParseInt(id).Some? && !(1 <= ParseInt(id).value <= |t|) ==> r == Err(UpdatePrefix + NotFound)
    ensures ParseInt(id).Some? && 1 <= ParseInt(id).value <= |t| ==>
              var m := UpdateGuards(t, rank, ParseInt(id).value, patch, SelfKey(id, corrected), corrected);
              r == if m.Some? then Err(UpdatePrefix + m.value) else Rethrow(UpdatePrefix, UpdateOutcome(t, ParseInt(id).value, patch))
  {
    match ParseInt(id)
    case None => Err(UpdatePrefix + InvalidArgument)
    case Some(n) => UpdateFound(t, rank, n, patch, SelfKey(id, corrected), corrected)
  }

  /** `updateCategory` once the id is parsed to `n`: the lookup, the guards, then the write. */
  ghost function UpdateFound(t: seq<Category>, rank: map<int, nat>, n: int, patch: CategoryPatch, selfKey: JsValue,
                             requireLive: bool): (r: Result<Category>)
    requires CategoriesWellFormed(t) && Ranked(t, rank)
    ensures r.Ok? ==> && 1 <= n <= |t| && UpdateGuards(t, rank, n, patch, selfKey, requireLive).None?
                      && r == UpdateOutcome(t, n, patch)
    ensures r.Err? ==> StartsWith(r.msg, UpdatePrefix)
    ensures !(1 <= n <= |t|) ==> r == Err(UpdatePrefix + NotFound)
    ensures 1 <= n <= |t| ==>
              var m := UpdateGuards(t, rank, n, patch, selfKey, requireLive);
              r == if m.Some? then Err(UpdatePrefix + m.value) else Rethrow(UpdatePrefix, UpdateOutcome(t, n, patch))
  {
    if FindById(t, n).None? then Err(UpdatePrefix + NotFound)
    else
      match UpdateGuards(t, rank, n, patch, selfKey, requireLive)
      case Some(m) => Err(UpdatePrefix + m)
      case None => Rethrow(UpdatePrefix, UpdateOutcome(t, n, patch))
  }

  /** The value `data.parentId` is compared with: the raw route string as written, the parsed id
      once corrected. */
  function SelfKey(id: string, corrected: bool): (k: JsValue)
    ensures !corrected ==> k.Str?
    ensures corrected && ParseInt(id).Some? ==> k == Number(ParseInt(id).value)
  {
    if corrected && ParseInt(id).Some? then Number(ParseInt(id).value) else Str(id)
  }

  /** The ranking kept after an update of row `n`. */
  ghost function UpdatedRank(t: seq<Category>, rank: map<int, nat>, n: int, patch: CategoryPatch): map<int, nat>
    requires CategoriesWellFormed(t) && Ranked(t, rank) && 1 <= n <= |t|
  {
    if ParentChanges(t[n - 1], patch) && n in rank then Rerank(rank, {n} + Ids(Desc(t, rank, n)), rank[n] + 1)
    else rank
  }

  /** The row an accepted update writes keeps its id and deleted flag; its parent is the new one
      when the parent changes, and otherwise the old one or none. */
  lemma UpdatedRow(t: seq<Category>, n: int, patch: CategoryPatch)
    requires CategoriesWellFormed(t) && 1 <= n <= |t| && UpdateOutcome(t, n, patch).Ok?
    ensures var row := UpdateOutcome(t, n, patch).value;
            && row.id == n && row.isDeleted == t[n - 1].isDeleted
            && (row.parentId.Some? ==> 1 <= row.parentId.value <= |t|)
            && (ParentChanges(t[n - 1], patch) ==> row.parentId == Some(patch.parentId.n))
            && (!ParentChanges(t[n - 1], patch) ==> row.parentId == t[n - 1].parentId || row.parentId.None?)
  {
  }

  /** Once row `n` passed the guards with the corrected self-parent check, writing the patch keeps
      the live rows acyclic. */
  lemma GuardedUpdateKeepsRanked(t: seq<Category>, rank: map<int, nat>, n: int, patch: CategoryPatch)
    requires CategoriesWellFormed(t) && Ranked(t, rank) && 1 <= n <= |t|
    requires UpdateGuards(t, rank, n, patch, Number(n), true).None? && UpdateOutcome(t, n, patch).Ok?
    ensures Ranked(t[n - 1 := UpdateOutcome(t, n, patch).value], UpdatedRank(t, rank, n, patch))
  {
    var row := UpdateOutcome(t, n, patch).value;
    UpdatedRow(t, n, patch);
    IdInRank(t, rank, n);
    if ParentChanges(t[n - 1], patch) {
      RankedAfterReparent(t, rank, n, row);
    } else {
      RankedAfterRewrite(t, rank, n, row);
    }
  }

  /** Once row `n` passed the guards with the live-parent check, writing the patch keeps every
      live row under live rows. */
  lemma GuardedUpdateKeepsLiveParents(t: seq<Category>, rank: map<int, nat>, n: int, patch: CategoryPatch)
    requires CategoriesWellFormed(t) && Ranked(t, rank) && LiveParents(t) && 1 <= n <= |t|
    requires UpdateGuards(t, rank, n, patch, Number(n), true).None? && UpdateOutcome(t, n, patch).Ok?
    ensures LiveParents(t[n - 1 := UpdateOutcome(t, n, patch).value])
  {
    UpdatedRow(t, n, patch);
    LiveParentsAfterRewrite(t, n, UpdateOutcome(t, n, patch).value);
  }

  /** With the corrected guards an update keeps the live rows acyclic, and keeps them under live
      rows, so no cycle can form through soft-deleted rows either. */
  lemma UpdateKeepsAcyclic(t: seq<Category>, rank: map<int, nat>, id: string, patch: CategoryPatch)
    requires CategoriesWellFormed(t) && Ranked(t, rank)
    ensures var r := UpdateVerdict(t, rank, id, patch, true);
            r.Ok? ==> && Ranked(t[ParseInt(id).value - 1 := r.value], UpdatedRank(t, rank, ParseInt(id).value, patch))
                      && (LiveParents(t) ==> LiveParents(t[ParseInt(id).value - 1 := r.value]))
  {
    var r := UpdateVerdict(t, rank, id, patch, true);
    if r.Ok? {
      var n := ParseInt(id).value;
      AcceptedUpdate(t, rank, id, patch);
      var t' := t[n - 1 := UpdateOutcome(t, n, patch).value];
      GuardedUpdateKeepsRanked(t, rank, n, patch);
      assert Ranked(t', UpdatedRank(t, rank, n, patch));
      if LiveParents(t) {
        GuardedUpdateKeepsLiveParents(t, rank, n, patch);
        assert LiveParents(t');
      }
      assert t[ParseInt(id).value - 1 := r.value] == t';
    }
  }

  /** With the corrected guards, on a table whose live rows hang under live rows, no accepted
      update makes a live category its own ancestor, whatever the soft-deleted rows hold. */
  lemma CorrectedUpdateLeavesNoLiveCycle(t: seq<Category>, rank: map<int, nat>, id: string, patch: CategoryPatch, c: int, k: nat)
    requires CategoriesWellFormed(t) && Ranked(t, rank) && LiveParents(t)
    requires UpdateVerdict(t, rank, id, patch, true).Ok?
    requires 1 <= c <= |t| && !t[c - 1].isDeleted && k > 0
    ensures Ancestor(t[ParseInt(id).value - 1 := UpdateVerdict(t, rank, id, patch, true).value], c, k) != Some(c)
  {
    var n := ParseInt(id).value;
    var t' := t[n - 1 := UpdateVerdict(t, rank, id, patch, true).value];
    UpdateKeepsAcyclic(t, rank, id, patch);
    LiveNeverOwnAncestor(t', UpdatedRank(t, rank, n, patch), c, k);
  }

  /** What an update accepted with the corrected guards has passed. */
  lemma AcceptedUpdate(t: seq<Category>, rank: map<int, nat>, id: string, patch: CategoryPatch)
    requires CategoriesWellFormed(t) && Ranked(t, rank) && UpdateVerdict(t, rank, id, patch, true).Ok?
    ensures var n := ParseInt(id).value;
            && 1 <= n <= |t| && UpdateGuards(t, rank, n, patch, Number(n), true).None?
            && UpdateOutcome(t, n, patch) == UpdateVerdict(t, rank, id, patch, true)
  {
    assert SelfKey(id, true) == Number(ParseInt(id).value);
  }

  /** Names are unique, so no other row holds row `n`'s name. */
  lemma OwnNameUnique(t: seq<Category>, n: int)
    requires CategoriesWellFormed(t) && 1 <= n <= |t|
    ensures forall x | x in t && x.id != n :: x.name != t[n - 1].name
  {
    forall x | x in t && x.id != n ensures x.name != t[n - 1].name {
      var i :| 0 <= i < |t| && t[i] == x;
    }
  }

  /** An update that keeps the category's own name and sends no `parentId` passes every guard and
      changes only the description. */
  lemma SameNameUpdateAccepted(t: seq<Category>, rank: map<int, nat>, id: string, description: Option<string>, corrected: bool)
    requires CategoriesWellFormed(t) && Ranked(t, rank)
    requires ParseInt(id).Some? && 1 <= ParseInt(id).value <= |t|
    ensures var row := t[ParseInt(id).value - 1];
            UpdateVerdict(t, rank, id, CategoryPatch(Some(row.name), description, Absent), corrected)
              == Ok(row.(description := if description.Some? then description.value else row.description))
  {
    var n := ParseInt(id).value;
    var patch := CategoryPatch(Some(t[n - 1].name), description, Absent);
    OwnNameUnique(t, n);
    assert UpdateGuards(t, rank, n, patch, SelfKey(id, corrected), corrected).None?;
    assert UpdateOutcome(t, n, patch).Ok?;
  }

  lemma ParseOne()
    ensures ParseInt("1") == Some(1)
  {
    var s := "1";
    assert s[1..] == [] && !IsSpace(s[0]) && IsDigit(s[0]);
    assert LeadingDigits(s) == s;
    assert s[..0] == [];
  }

  /** A one-row table: category 1, a root. */
  function OneRoot(): (t: seq<Category>)
    ensures CategoriesWellFormed(t) && Ranked(t, map[1 := 0])
  {
    [Category(1, "Elektronik", "", None, false)]
  }

  /** As written, the self-parent guard never fires: the request making category 1 its own parent
      passes every guard and is written, and the resulting table has no ranking, so
      `getAllSubcategories(1)` would recurse forever. */
  lemma SelfParentAcceptedAsWritten()
    ensures var patch := CategoryPatch(None, None, Value(1));
            var r := UpdateVerdict(OneRoot(), map[1 := 0], "1", patch, false);
            && r.Ok? && r.value.parentId == Some(1)
            && !Acyclic(OneRoot()[0 := r.value])
  {
    var t, patch := OneRoot(), CategoryPatch(None, None, Value(1));
    ParseOne();
    assert FindChildren(t, 1) == [];
    assert UpdateGuards(t, map[1 := 0], 1, patch, Str("1"), false).None?;
    var row := Category(1, "Elektronik", "", Some(1), false);
    assert UpdateOutcome(t, 1, patch) == Ok(row);
    assert t[0 := row] == [row];
    forall rank ensures !Ranked([row], rank) {
      SelfLoopUnranked([row], rank, row);
    }
  }

  /** With the guard corrected, the same request is refused with the self-parent message. */
  lemma SelfParentRefusedWhenFixed()
    ensures var patch := CategoryPatch(None, None, Value(1));
            UpdateVerdict(OneRoot(), map[1 := 0], "1", patch, true) == Err(UpdatePrefix + SelfParent)
  {
    ParseOne();
    assert UpdateGuards(OneRoot(), map[1 := 0], 1, CategoryPatch(None, None, Value(1)), Number(1), true) == Some(SelfParent);
  }

  /** A create accepted with the live-parent check keeps every live row under live rows. */
  lemma CreateKeepsLiveParents(t: seq<Category>, data: NewCategory)
    requires CategoriesWellFormed(t) && LiveParents(t) && CreateVerdict(t, data, true).Ok?
    ensures LiveParents(t + [CreateVerdict(t, data, true).value])
  {
    LiveParentsAfterCreate(t, CreateVerdict(t, data, true).value);
  }

  /** Two soft-deleted categories, 2 under 1. */
  function DeletedPair(): (t: seq<Category>)
    ensures CategoriesWellFormed(t) && |t| == 2 && t[0].isDeleted && t[1].isDeleted
  {
    [Category(1, "Giyim", "", None, true), Category(2, "Ayakkabi", "", Some(1), true)]
  }

  /** As written, a new category may be created under a soft-deleted one. */
  lemma DeletedParentAcceptedAsWritten()
    ensures CreateVerdict(DeletedPair(), NewCategory("Bot", "", Value(2)), false)
              == Ok(Category(3, "Bot", "", Some(2), false))
  {
    assert !NameTaken(DeletedPair(), "Bot");
  }

  /** With the live-parent check the same request is refused. */
  lemma DeletedParentRefusedWhenFixed()
    ensures CreateVerdict(DeletedPair(), NewCategory("Bot", "", Value(2)), true) == Err(CreatePrefix + ParentNotFound)
  {
  }

  /** The table the as-written create leaves: live category 3 under deleted 2 under deleted 1. */
  function LiveUnderDeleted(): (t: seq<Category>)
    ensures CategoriesWellFormed(t) && Ranked(t, map[1 := 2, 2 := 1, 3 := 0])
  {
    DeletedPair() + [Category(3, "Bot", "", Some(2), false)]
  }

  /** On that table, moving deleted category 1 under live category 3 passes every guard as written:
      the descendant walk skips deleted rows, so it does not see that 3 lies below 1. The result
      has the cycle 3, 2, 1, 3 through the live row 3. */
  lemma CycleThroughDeletedRows()
    ensures var r := UpdateVerdict(LiveUnderDeleted(), map[1 := 2, 2 := 1, 3 := 0], "1", CategoryPatch(None, None, Value(3)), false);
            && r == Ok(Category(1, "Giyim", "", Some(3), true))
            && Ancestor(LiveUnderDeleted()[0 := r.value], 3, 3) == Some(3)
  {
    var t, rank, patch := LiveUnderDeleted(), map[1 := 2, 2 := 1, 3 := 0], CategoryPatch(None, None, Value(3));
    ParseOne();
    CycleGuardsPass();
    assert UpdateOutcome(t, 1, patch).Ok?;
    var t' := t[0 := Category(1, "Giyim", "", Some(3), true)];
    assert Ancestor(t', 3, 1) == Some(2);
    assert Ancestor(t', 3, 2) == Some(1);
  }

  /** The guards as written let the move of category 1 under category 3 through. */
  lemma CycleGuardsPass()
    ensures UpdateGuards(LiveUnderDeleted(), map[1 := 2, 2 := 1, 3 := 0], 1, CategoryPatch(None, None, Value(3)), Str("1"), false).None?
  {
    assert FindChildren(LiveUnderDeleted(), 1) == [];
  }

  /** The rename guard does not exclude the category itself: renaming a live category to a
      different, non-empty piece of its own name is refused as a duplicate. */
  lemma RenameToOwnSubstringRefused(t: seq<Category>, rank: map<int, nat>, id: string, patch: CategoryPatch,
                                    corrected: bool, i: int, j: int)
    requires CategoriesWellFormed(t) && Ranked(t, rank)
    requires ParseInt(id).Some? && 1 <= ParseInt(id).value <= |t| && !t[ParseInt(id).value - 1].isDeleted
    requires 0 <= i < j <= |t[ParseInt(id).value - 1].name|
    requires patch.name == Some(t[ParseInt(id).value - 1].name[i..j])
    requires patch.name.value != t[ParseInt(id).value - 1].name
    ensures UpdateVerdict(t, rank, id, patch, corrected) == Err(UpdatePrefix + DuplicateName)
  {
    var category := t[ParseInt(id).value - 1];
    SliceMatches(category.name, i, j);
    assert category in t;
  }

  /** The rows after soft-deleting every row whose id is in `ids`. */
  function MarkDeleted(t: seq<Category>, ids: set<int>): (r: seq<Category>)
    ensures |r| == |t|
    ensures forall i | 0 <= i < |t| :: r[i] == if t[i].id in ids then t[i].(isDeleted := true) else t[i]
  {
    seq(|t|, i requires 0 <= i < |t| => if t[i].id in ids then t[i].(isDeleted := true) else t[i])
  }

  /** Soft-deleting one more row `c` extends the set of marked ids. */
  lemma MarkDeletedStep(t: seq<Category>, ids: set<int>, c: int)
    requires CategoriesWellFormed(t) && 1 <= c <= |t|
    ensures MarkDeleted(t, ids)[c - 1 := MarkDeleted(t, ids)[c - 1].(isDeleted := true)] == MarkDeleted(t, ids + {c})
  {
  }

  lemma MarkDeletedKeepsRanked(t: seq<Category>, rank: map<int, nat>, ids: set<int>)
    requires Ranked(t, rank)
    ensures Ranked(MarkDeleted(t, ids), rank)
  {
    RankedTransfer(t, MarkDeleted(t, ids), rank);
  }

  /** What `deleteCategory(id)` answers: the category itself, now soft-deleted. */
  function DeleteVerdict(t: seq<Category>, id: string): (r: Result<Category>)
    requires CategoriesWellFormed(t)
    ensures r.Ok? <==> ParseInt(id).Some? && 1 <= ParseInt(id).value <= |t|
    ensures r.Ok? ==> r.value == t[ParseInt(id).value - 1].(isDeleted := true)
    ensures r.Err? ==> StartsWith(r.msg, DeletePrefix)
    ensures ParseInt(id).Some? && !(1 <= ParseInt(id).value <= |t|) ==> r == Err(DeletePrefix + NotFound)
  {
    match ParseInt(id)
    case None => Err(DeletePrefix + InvalidArgument)
    case Some(n) => if FindById(t, n).None? then Err(DeletePrefix + NotFound) else Rethrow(DeletePrefix, DeleteOutcome(t, n))
  }

  /** After the cascade no live category is left under the deleted one. */
  lemma CascadeLeavesNoLiveDescendant(t: seq<Category>, rank: map<int, nat>, n: int)
    requires CategoriesWellFormed(t) && Ranked(t, rank) && 1 <= n <= |t| && n in rank
    ensures var t' := MarkDeleted(t, {n} + Ids(Desc(t, rank, n)));
            Ranked(t', rank) && FindChildren(t', n) == []
  {
    var t' := MarkDeleted(t, {n} + Ids(Desc(t, rank, n)));
    RankedTransfer(t, t', rank);
    if FindChildren(t', n) != [] {
      var x := FindChildren(t', n)[0];
      var i :| 0 <= i < |t'| && t'[i] == x;
      DescClosed(t, rank, n, t[i]);
    }
  }

  /** The cascade marks the category and all its live descendants, so no live row is left under a
      marked one: `LiveParents` is kept. */
  lemma CascadeKeepsLiveParents(t: seq<Category>, rank: map<int, nat>, n: int)
    requires CategoriesWellFormed(t) && Ranked(t, rank) && LiveParents(t) && 1 <= n <= |t| && n in rank
    ensures LiveParents(MarkDeleted(t, {n} + Ids(Desc(t, rank, n))))
  {
    var marked := {n} + Ids(Desc(t, rank, n));
    var t' := MarkDeleted(t, marked);
    forall i, j | 0 <= i < |t'| && 0 <= j < |t'| && !t'[i].isDeleted && t'[i].parentId == Some(j + 1)
      ensures !t'[j].isDeleted
    {
      assert t'[i] == t[i] && t[i] in t;
      if t[j].id in marked {
        DescClosed(t, rank, n, t[i]);
      }
    }
  }

  /** The loop of `deleteCategory` over the collected rows: each is soft-deleted in turn. */
  method SoftDeleteRows(db: Database, rows: seq<Category>)
    requires db.Valid()
    requires forall x | x in rows :: 1 <= x.id <= |db.categories|
    modifies db`categories
    ensures db.Valid()
    ensures db.categories == MarkDeleted(old(db.categories), Ids(rows))
  {
    ghost var t := db.categories;
    for k := 0 to |rows|
      invariant db.Valid() && |db.categories| == |t|
      invariant db.categories == MarkDeleted(t, Ids(rows[..k]))
    {
      IdsStep(rows, k);
      MarkDeletedStep(t, Ids(rows[..k]), rows[k].id);
      var _ := CategoryRepository.Delete(db, rows[k].id);
    }
    IdsAll(rows);
  }

  class CategoryService {
    const db: Database
    /** A ranking of the category table, the witness that it is acyclic. */
    ghost var rank: map<int, nat>

    ghost predicate Valid()
      reads this, db
    {
      db.Valid() && Ranked(db.categories, rank) && LiveParents(db.categories)
    }

    constructor (db: Database)
      requires db.Valid() && Acyclic(db.categories) && LiveParents(db.categories)
      ensures Valid() && this.db == db
    {
      this.db := db;
      ghost var rank0 :| Ranked(db.categories, rank0);
      rank := rank0;
    }

    /** `createCategory(data, userId)` with the live-parent check; the user id is not used. */
    method CreateCategory(data: NewCategory) returns (r: Result<Category>)
      requires Valid()
      modifies db`categories, this`rank
      ensures Valid()
      ensures r == CreateVerdict(old(db.categories), data, true)
      ensures db.categories == if r.Ok? then old(db.categories) + [r.value] else old(db.categories)
    {
      if FindByName(db.categories, data.name).Some? {
        return Err(CreatePrefix + DuplicateName);
      }
      if Truthy(data.parentId) && !ParentUsable(db.categories, data.parentId.n, true) {
        return Err(CreatePrefix + ParentNotFound);
      }
      ghost var t := db.categories;
      var created := CategoryRepository.Create(db, data);
      if created.Err? {
        return Err(CreatePrefix + created.msg);
      }
      assert created == CreateVerdict(t, data, true);
      RankedAfterCreate(t, rank, created.value);
      CreateKeepsLiveParents(t, data);
      rank := ShiftRank(rank, created.value.id);
      r := created;
    }

    /** `getAllCategories(includeDeleted)`: the forest built from `findAll(includeDeleted)`. */
    method GetAllCategories(includeDeleted: bool) returns (f: Forest)
      ensures f.roots == RootIds(FindAll(db.categories, includeDeleted))
      ensures f.nodes.Keys == Ids(FindAll(db.categories, includeDeleted))
      ensures forall k | k in f.nodes :: Some(f.nodes[k].category) == LastWithId(FindAll(db.categories, includeDeleted), k)
      ensures forall k | k in f.nodes :: f.nodes[k].children == ChildIds(FindAll(db.categories, includeDeleted), k)
    {
      f := BuildCategoryTree(FindAll(db.categories, includeDeleted));
    }

    /** `getAllSubcategories(categoryId)`: every live descendant once, in pre-order. */
    method GetAllSubcategories(categoryId: int) returns (result: seq<Category>)
      requires Valid()
      ensures categoryId in rank ==> result == Desc(db.categories, rank, categoryId)
      ensures categoryId !in rank ==> result == []
      ensures categoryId in rank ==> DistinctIds(result)
      decreases if categoryId in rank then rank[categoryId] + 1 else 0
    {
      var children := FindChildren(db.categories, categoryId);
      if children != [] {
        ghost var i :| 0 <= i < |db.categories| && db.categories[i] == children[0];
        IdInRank(db.categories, rank, categoryId);
      }
      result := [];
      for k := 0 to |children|
        invariant children != [] ==> categoryId in rank
        invariant categoryId in rank ==> result == DescList(db.categories, rank, children[..k], rank[categoryId])
        invariant categoryId !in rank ==> result == []
      {
        DescListStep(db.categories, rank, children, rank[categoryId], k);
        var grandChildren := GetAllSubcategories(children[k].id);
        result := result + [children[k]] + grandChildren;
      }
      if categoryId in rank {
        assert children[..|children|] == children;
        DescDistinctFrom(db.categories, rank, categoryId);
      }
    }

    /** `updateCategory(id, data)`, with the self-parent guard comparing against the parsed id and
        the parent required to be live. */
    method UpdateCategory(id: string, patch: CategoryPatch) returns (r: Result<Category>)
      requires Valid()
      modifies db`categories, this`rank
      ensures Valid()
      ensures r == UpdateVerdict(old(db.categories), old(rank), id, patch, true)
      ensures r.Ok? ==> db.categories == old(db.categories)[ParseInt(id).value - 1 := r.value]
      ensures r.Err? ==> db.categories == old(db.categories)
    {
      var parsed := ParseInt(id);
      if parsed.None? {
        return Err(UpdatePrefix + InvalidArgument);
      }
      r := UpdateParsed(parsed.value, patch);
    }

    /** `updateCategory` once the route parameter is parsed to `n`. */
    method UpdateParsed(n: int, patch: CategoryPatch) returns (r: Result<Category>)
      requires Valid()
      modifies db`categories, this`rank
      ensures Valid()
      ensures r == UpdateFound(old(db.categories), old(rank), n, patch, Number(n), true)
      ensures r.Ok? ==> db.categories == old(db.categories)[n - 1 := r.value]
      ensures r.Err? ==> db.categories == old(db.categories)
    {
      if FindById(db.categories, n).None? {
        return Err(UpdatePrefix + NotFound);
      }
      var failed := RunUpdateGuards(n, patch);
      if failed.Some? {
        return Err(UpdatePrefix + failed.value);
      }
      ghost var t := db.categories;
      var updated := CategoryRepository.Update(db, n, patch);
      if updated.Err? {
        return Err(UpdatePrefix + updated.msg);
      }
      GuardedUpdateKeepsRanked(t, rank, n, patch);
      GuardedUpdateKeepsLiveParents(t, rank, n, patch);
      rank := UpdatedRank(t, rank, n, patch);
      r := updated;
    }

    /** The guards of `updateCategory` for the found row `n`, in the source's order; the descendant
        check walks the subtree with `getAllSubcategories`. */
    method RunUpdateGuards(n: int, patch: CategoryPatch) returns (failed: Option<string>)
      requires Valid() && 1 <= n <= |db.categories|
      ensures failed == UpdateGuards(db.categories, rank, n, patch, Number(n), true)
    {
      var category := db.categories[n - 1];
      if NameChanges(category, patch) && FindByName(db.categories, patch.name.value).Some? {
        return Some(DuplicateName);
      }
      if !ParentChanges(category, patch) {
        return None;
      }
      var p := patch.parentId.n;
      if StrictEquals(Number(p), Number(n)) {
        return Some(SelfParent);
      }
      IdInRank(db.categories, rank, n);
      var children := GetAllSubcategories(n);
      if exists k | 0 <= k < |children| :: children[k].id == p {
        return Some(DescendantParent);
      }
      if !ParentUsable(db.categories, p, true) {
        return Some(ParentNotFound);
      }
      failed := None;
    }

    /** `deleteCategory(id)`: soft-deletes every live descendant, then the category itself. */
    method DeleteCategory(id: string) returns (r: Result<Category>)
      requires Valid()
      modifies db`categories
      ensures Valid()
      ensures r == DeleteVerdict(old(db.categories), id)
      ensures r.Ok? ==> db.categories == MarkDeleted(old(db.categories),
                                                     {ParseInt(id).value} + Ids(Desc(old(db.categories), rank, ParseInt(id).value)))
      ensures r.Err? ==> db.categories == old(db.categories)
    {
      var parsed := ParseInt(id);
      if parsed.None? {
        return Err(DeletePrefix + InvalidArgument);
      }
      var n := parsed.value;
      if FindById(db.categories, n).None? {
        return Err(DeletePrefix + NotFound);
      }
      var deleted := DeleteSubtree(n);
      r := Ok(deleted);
    }

    /** The body of `deleteCategory` once the row is found: the loop over `getAllSubcategories`,
        then the category itself. */
    method DeleteSubtree(n: int) returns (deleted: Category)
      requires Valid() && 1 <= n <= |db.categories|
      modifies db`categories
      ensures Valid()
      ensures n in rank && deleted == old(db.categories)[n - 1].(isDeleted := true)
      ensures db.categories == MarkDeleted(old(db.categories), {n} + Ids(Desc(old(db.categories), rank, n)))
    {
      IdInRank(db.categories, rank, n);
      var children := GetAllSubcategories(n);
      ghost var t := db.categories;
      forall x | x in children ensures 1 <= x.id <= |t| {
        DescInRange(t, rank, n, x);
      }
      SoftDeleteRows(db, children);
      ghost var marked := {n} + Ids(children);
      NotOwnDescendant(t, rank, n);
      assert db.categories[n - 1] == t[n - 1];
      MarkDeletedStep(t, Ids(children), n);
      assert Ids(children) + {n} == marked;
      var r := CategoryRepository.Delete(db, n);
      MarkDeletedKeepsRanked(t, rank, marked);
      CascadeKeepsLiveParents(t, rank, n);
      deleted := r.value;
    }
  }
}
