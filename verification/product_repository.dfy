/** The product table's queries and writes (repositories/ProductRepository.js). */
module ProductRepository {
  import opened Wrappers
  import opened Records
  import opened Database

  /** The body of a create request, with the creating admin's id added by the service. */
  datatype NewProduct = NewProduct(name: string, stock: int, categoryId: int)

  /** The body of an update request; a missing field leaves the column as it is. */
  datatype ProductPatch = ProductPatch(name: Option<string>, stock: Option<int>, categoryId: Option<int>)

  /** The row after Prisma's `update` writes the fields the patch carries. */
  function PatchedProduct(row: Product, patch: ProductPatch): (r: Product)
    ensures r.id == row.id && r.userId == row.userId && r.isDeleted == row.isDeleted
    ensures r.name == (if patch.name.Some? then patch.name.value else row.name)
    ensures r.stock == (if patch.stock.Some? then patch.stock.value else row.stock)
    ensures r.categoryId == (if patch.categoryId.Some? then patch.categoryId.value else row.categoryId)
  {
    row.(name := if patch.name.Some? then patch.name.value else row.name,
         stock := if patch.stock.Some? then patch.stock.value else row.stock,
         categoryId := if patch.categoryId.Some? then patch.categoryId.value else row.categoryId)
  }

  /** `findAll(includeDeleted)`: every row unless soft-deleted rows are excluded, in id order. */
  function FindAll(t: seq<Product>, includeDeleted: bool): (r: seq<Product>)
    ensures forall x :: x in r <==> x in t && (includeDeleted || !x.isDeleted)
    ensures includeDeleted ==> r == t
    ensures |r| <= |t|
  {
    if t == [] then []
    else
      var rest := FindAll(t[1..], includeDeleted);
      assert t == [t[0]] + t[1..];
      if includeDeleted || !t[0].isDeleted then [t[0]] + rest else rest
  }

  /** `findById(id)`: the row with that id, whether soft-deleted or not. */
  function FindById(t: seq<Product>, id: int): (r: Option<Product>)
    requires forall i | 0 <= i < |t| :: t[i].id == i + 1
    ensures r.Some? <==> exists x :: x in t && x.id == id
    ensures r.Some? ==> r.value in t && r.value.id == id
  {
    if 1 <= id <= |t| then Some(t[id - 1]) else None
  }

  /** `findByCategory(c)`: the live rows whose `categoryId` is exactly `c`; products of
      subcategories are not included. */
  function FindByCategory(t: seq<Product>, c: int): (r: seq<Product>)
    ensures forall x :: x in r <==> x in t && x.categoryId == c && !x.isDeleted
    ensures |r| <= |t|
  {
    if t == [] then []
    else
      var rest := FindByCategory(t[1..], c);
      assert t == [t[0]] + t[1..];
      if t[0].categoryId == c && !t[0].isDeleted then [t[0]] + rest else rest
  }

  /** What `prisma.product.create` answers: the category foreign key is checked; otherwise the
      row gets the next id. */
  function CreateOutcome(t: seq<Product>, categoryCount: int, data: NewProduct, userId: int): (r: Result<Product>)
    ensures r.Ok? <==> 1 <= data.categoryId <= categoryCount
    ensures r.Ok? ==> r.value == Product(|t| + 1, data.name, data.stock, data.categoryId, userId, false)
    ensures r.Err? ==> r.msg == ForeignKeyViolation
  {
    if 1 <= data.categoryId <= categoryCount then Ok(Product(|t| + 1, data.name, data.stock, data.categoryId, userId, false))
    else Err(ForeignKeyViolation)
  }

  /** What `prisma.product.update({ where: { id }, data })` answers. */
  function UpdateOutcome(t: seq<Product>, categoryCount: int, id: int, patch: ProductPatch): (r: Result<Product>)
    requires forall i | 0 <= i < |t| :: t[i].id == i + 1
    ensures r.Ok? <==> 1 <= id <= |t| && (patch.categoryId.Some? ==> 1 <= patch.categoryId.value <= categoryCount)
    ensures r.Ok? ==> r.value == PatchedProduct(t[id - 1], patch)
    ensures !(1 <= id <= |t|) ==> r == Err(RecordNotFound)
  {
    if !(1 <= id <= |t|) then Err(RecordNotFound)
    else if patch.categoryId.Some? && !(1 <= patch.categoryId.value <= categoryCount) then Err(ForeignKeyViolation)
    else Ok(PatchedProduct(t[id - 1], patch))
  }

  /** `create(data)` */
  method Create(db: Database, data: NewProduct, userId: int) returns (r: Result<Product>)
    requires db.Valid()
    modifies db`products
    ensures db.Valid()
    ensures r == CreateOutcome(old(db.products), |db.categories|, data, userId)
    ensures db.products == if r.Ok? then old(db.products) + [r.value] else old(db.products)
  {
    r := CreateOutcome(db.products, |db.categories|, data, userId);
    if r.Ok? {
      db.products := db.products + [r.value];
    }
  }

  /** `update(id, data)` */
  method Update(db: Database, id: int, patch: ProductPatch) returns (r: Result<Product>)
    requires db.Valid()
    modifies db`products
    ensures db.Valid()
    ensures r == UpdateOutcome(old(db.products), |db.categories|, id, patch)
    ensures db.products == if r.Ok? then old(db.products)[id - 1 := r.value] else old(db.products)
  {
    r := UpdateOutcome(db.products, |db.categories|, id, patch);
    if r.Ok? {
      db.products := db.products[id - 1 := r.value];
    }
  }

  /** `delete(id)`: a soft delete; the row stays and only `isDeleted` becomes true. */
  method Delete(db: Database, id: int) returns (r: Result<Product>)
    requires db.Valid()
    modifies db`products
    ensures db.Valid()
    ensures 1 <= id <= |old(db.products)| ==>
              && r == Ok(old(db.products)[id - 1].(isDeleted := true))
              && db.products == old(db.products)[id - 1 := r.value]
    ensures !(1 <= id <= |old(db.products)|) ==> r == Err(RecordNotFound) && db.products == old(db.products)
  {
    if 1 <= id <= |db.products| {
      r := Ok(db.products[id - 1].(isDeleted := true));
      db.products := db.products[id - 1 := r.value];
    } else {
      r := Err(RecordNotFound);
    }
  }
}
