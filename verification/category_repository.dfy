/** The category table's queries and writes (repositories/CategoryRepository.js). Queries are
    functions of the table; writes are methods that replace the table in the database object. */
module CategoryRepository {
  import opened Wrappers
  import opened Js
  import opened Records
  import opened Database

  /** The `parentId` of a request body: missing (`undefined`), `null`, or a number. */
  datatype ParentField = Absent | Null | Value(n: int)

  /** JavaScript truthiness of `data.parentId`: `undefined`, `null` and `0` are falsy. */
  predicate Truthy(f: ParentField)
  {
    f.Value? && f.n != 0
  }

  /** The body of a create request. */
  datatype NewCategory = NewCategory(name: string, description: string, parentId: ParentField)

  /** The body of an update request; a missing field leaves the column as it is. */
  datatype CategoryPatch = CategoryPatch(name: Option<string>, description: Option<string>, parentId: ParentField)

  /** The `parentId` column after writing `f` over `current`. */
  function ParentAfter(f: ParentField, current: Option<int>): Option<int>
  {
    match f
    case Absent => current
    case Null => None
    case Value(n) => Some(n)
  }

  /** The row after Prisma's `update` writes the fields the patch carries. */
  function Patched(row: Category, patch: CategoryPatch): (r: Category)
    ensures r.id == row.id && r.isDeleted == row.isDeleted
    ensures r.name == (if patch.name.Some? then patch.name.value else row.name)
    ensures r.description == (if patch.description.Some? then patch.description.value else row.description)
    ensures patch.parentId.Absent? ==> r.parentId == row.parentId
    ensures patch.parentId.Null? ==> r.parentId.None?
    ensures patch.parentId.Value? ==> r.parentId == Some(patch.parentId.n)
  {
    row.(name := if patch.name.Some? then patch.name.value else row.name,
         description := if patch.description.Some? then patch.description.value else row.description,
         parentId := ParentAfter(patch.parentId, row.parentId))
  }

  ghost predicate DistinctIds(s: seq<Category>)
  {
    forall i, j | 0 <= i < j < |s| :: s[i].id != s[j].id
  }

  lemma WellFormedDistinct(t: seq<Category>)
    requires CategoriesWellFormed(t)
    ensures DistinctIds(t)
  {
  }

  // ---------------------------------------------------------------------------------------------
  // Queries
  // ---------------------------------------------------------------------------------------------

  /** `findAll(includeDeleted)`: every row unless soft-deleted rows are excluded, in id order. */
  function FindAll(t: seq<Category>, includeDeleted: bool): (r: seq<Category>)
    ensures forall x :: x in r <==> x in t && (includeDeleted || !x.isDeleted)
    ensures includeDeleted ==> r == t
    ensures DistinctIds(t) ==> DistinctIds(r)
  {
    if t == [] then []
    else
      var rest := FindAll(t[1..], includeDeleted);
      assert t == [t[0]] + t[1..];
      if includeDeleted || !t[0].isDeleted then [t[0]] + rest else rest
  }

  /** `findById(id)`: the row with that id, whether soft-deleted or not. */
  function FindById(t: seq<Category>, id: int): (r: Option<Category>)
    requires CategoriesWellFormed(t)
    ensures r.Some? <==> exists x :: x in t && x.id == id
    ensures r.Some? ==> r.value in t && r.value.id == id
  {
    if 1 <= id <= |t| then Some(t[id - 1]) else None
  }

  /** `findChildren(p)`: the rows whose parent is `p` and that are not soft-deleted, in id order. */
  function FindChildren(t: seq<Category>, p: int): (r: seq<Category>)
    ensures forall x :: x in r <==> x in t && x.parentId == Some(p) && !x.isDeleted
    ensures DistinctIds(t) ==> DistinctIds(r)
  {
    if t == [] then []
    else
      var rest := FindChildren(t[1..], p);
      assert t == [t[0]] + t[1..];
      if t[0].parentId == Some(p) && !t[0].isDeleted then [t[0]] + rest else rest
  }

  /** `findByName(name)`: the first row that is not soft-deleted and whose name contains `name`,
      ignoring case. */
  function FindByName(t: seq<Category>, name: string): (r: Option<Category>)
    ensures r.Some? <==> exists x :: x in t && !x.isDeleted && ContainsIgnoreCase(x.name, name)
    ensures r.Some? ==> r.value in t && !r.value.isDeleted && ContainsIgnoreCase(r.value.name, name)
  {
    if t == [] then None
    else if !t[0].isDeleted && ContainsIgnoreCase(t[0].name, name) then Some(t[0])
    else
      assert t == [t[0]] + t[1..];
      FindByName(t[1..], name)
  }

  // ---------------------------------------------------------------------------------------------
  // Writes: what the store answers, then the methods that perform them
  // ---------------------------------------------------------------------------------------------

  /** What `prisma.category.create({ data })` answers: the unique index on `name` and the foreign
      key on `parentId` are checked; otherwise the row gets the next id. */
  function CreateOutcome(t: seq<Category>, data: NewCategory): (r: Result<Category>)
    requires CategoriesWellFormed(t)
    ensures r.Ok? <==> (forall x | x in t :: x.name != data.name)
                       && (data.parentId.Value? ==> 1 <= data.parentId.n <= |t|)
    ensures r.Ok? ==> CategoriesWellFormed(t + [r.value]) && r.value.name == data.name
                      && r.value.id == |t| + 1 && !r.value.isDeleted
                      && r.value.parentId == ParentAfter(data.parentId, None)
  {
    var parentId := ParentAfter(data.parentId, None);
    if exists x | x in t :: x.name == data.name then Err(UniqueViolation)
    else if parentId.Some? && !(1 <= parentId.value <= |t|) then Err(ForeignKeyViolation)
    else
      var row := Category(|t| + 1, data.name, data.description, parentId, false);
      assert forall i | 0 <= i < |t| :: t[i] in t;
      Ok(row)
  }

  /** What `prisma.category.update({ where: { id }, data })` answers: a missing row, a dangling
      parent or a name another row holds is refused; otherwise only the given fields change. */
  function UpdateOutcome(t: seq<Category>, id: int, patch: CategoryPatch): (r: Result<Category>)
    requires CategoriesWellFormed(t)
    ensures r.Ok? ==> 1 <= id <= |t| && r.value == Patched(t[id - 1], patch)
                      && CategoriesWellFormed(t[id - 1 := r.value])
    ensures 1 <= id <= |t| ==>
              var row := Patched(t[id - 1], patch);
              (r.Ok? <==> && (row.parentId.Some? ==> 1 <= row.parentId.value <= |t|)
                          && (forall x | x in t && x.id != id :: x.name != row.name))
    ensures !(1 <= id <= |t|) ==> r == Err(RecordNotFound)
  {
    if !(1 <= id <= |t|) then Err(RecordNotFound)
    else
      var row := Patched(t[id - 1], patch);
      if row.parentId.Some? && !(1 <= row.parentId.value <= |t|) then Err(ForeignKeyViolation)
      else if exists x | x in t :: x.id != id && x.name == row.name then Err(UniqueViolation)
      else
        assert forall i | 0 <= i < |t| :: t[i] in t;
        Ok(row)
  }

  /** What the soft `delete(id)` answers: the row with `isDeleted` set, or a missing row. */
  function DeleteOutcome(t: seq<Category>, id: int): (r: Result<Category>)
    requires CategoriesWellFormed(t)
    ensures r.Ok? <==> FindById(t, id).Some?
    ensures r.Ok? ==> r.value == t[id - 1].(isDeleted := true) && CategoriesWellFormed(t[id - 1 := r.value])
  {
    if 1 <= id <= |t| then Ok(t[id - 1].(isDeleted := true)) else Err(RecordNotFound)
  }

  /** `create(data)` */
  method Create(db: Database, data: NewCategory) returns (r: Result<Category>)
    requires db.Valid()
    modifies db`categories
    ensures db.Valid()
    ensures r == CreateOutcome(old(db.categories), data)
    ensures db.categories == if r.Ok? then old(db.categories) + [r.value] else old(db.categories)
  {
    r := CreateOutcome(db.categories, data);
    if r.Ok? {
      db.categories := db.categories + [r.value];
    }
  }

  /** `update(id, data)` */
  method Update(db: Database, id: int, patch: CategoryPatch) returns (r: Result<Category>)
    requires db.Valid()
    modifies db`categories
    ensures db.Valid()
    ensures r == UpdateOutcome(old(db.categories), id, patch)
    ensures db.categories == if r.Ok? then old(db.categories)[id - 1 := r.value] else old(db.categories)
  {
    r := UpdateOutcome(db.categories, id, patch);
    if r.Ok? {
      db.categories := db.categories[id - 1 := r.value];
    }
  }

  /** `delete(id)`: a soft delete; the row stays and only `isDeleted` becomes true. */
  method Delete(db: Database, id: int) returns (r: Result<Category>)
    requires db.Valid()
    modifies db`categories
    ensures db.Valid()
    ensures r == DeleteOutcome(old(db.categories), id)
    ensures db.categories == if r.Ok? then old(db.categories)[id - 1 := r.value] else old(db.categories)
    ensures 1 <= id <= |old(db.categories)| ==>
              r.Ok? && db.categories == old(db.categories)[id - 1 := old(db.categories)[id - 1].(isDeleted := true)]
  {
    r := DeleteOutcome(db.categories, id);
    if r.Ok? {
      db.categories := db.categories[id - 1 := r.value];
    }
  }
}
