/** The relational store the backend reaches through its Prisma client, as one object holding every
    table. Tables whose rows are never physically removed (categories, products, users) are sequences
    in id order: ids are autoincremented from 1, so the row with id `k` sits at index `k - 1`.
    Tables with hard deletes or a unique lookup column are maps. */
module Database {
  import opened Wrappers
  import opened Records

  /** Stand-ins for the messages of the errors Prisma throws; their exact text is Prisma's. */
  const RecordNotFound := "Record to update not found."
  const UniqueViolation := "Unique constraint failed"
  const ForeignKeyViolation := "Foreign key constraint failed"
  const RecordToDeleteMissing := "Record to delete does not exist."
  const InvalidArgument := "Invalid value provided for argument `id`"

  /** Autoincremented ids, every `parentId` names a row (foreign key), names unique (the seed upserts
      categories by `name`, so the column carries a unique index). */
  ghost predicate CategoriesWellFormed(t: seq<Category>)
  {
    && (forall i | 0 <= i < |t| :: t[i].id == i + 1)
    && (forall i | 0 <= i < |t| && t[i].parentId.Some? :: 1 <= t[i].parentId.value <= |t|)
    && (forall i, j | 0 <= i < j < |t| :: t[i].name != t[j].name)
  }

  ghost predicate ProductsWellFormed(t: seq<Product>, categoryCount: int)
  {
    && (forall i | 0 <= i < |t| :: t[i].id == i + 1)
    && (forall i | 0 <= i < |t| :: 1 <= t[i].categoryId <= categoryCount)
  }

  /** Autoincremented ids and unique emails. */
  ghost predicate UsersWellFormed(t: seq<User>)
  {
    && (forall i | 0 <= i < |t| :: t[i].id == i + 1)
    && (forall i, j | 0 <= i < j < |t| :: t[i].email != t[j].email)
  }

  /** Carts are keyed by their unique `userId`, which names a user; cart ids are below the next id
      and distinct. */
  ghost predicate CartsWellFormed(carts: map<int, Cart>, nextCartId: int, userCount: int)
  {
    && 1 <= nextCartId
    && (forall u | u in carts :: carts[u].userId == u && 1 <= u <= userCount && 1 <= carts[u].id < nextCartId)
    && (forall u, v | u in carts && v in carts && u != v :: carts[u].id != carts[v].id)
  }

  /** Cart items are keyed by their unique `(cartId, productId)`; every product exists. */
  ghost predicate CartItemsWellFormed(items: map<(int, int), CartItem>, nextItemId: int, productCount: int)
  {
    && 1 <= nextItemId
    && forall k | k in items ::
      && items[k].cartId == k.0 && items[k].productId == k.1
      && 1 <= k.1 <= productCount
      && 1 <= items[k].id < nextItemId
  }

  /** Addresses are keyed by id; a user has at most one default address. */
  ghost predicate AddressesWellFormed(addresses: map<int, Address>, nextAddressId: int)
  {
    && 1 <= nextAddressId
    && (forall k | k in addresses :: addresses[k].id == k && 1 <= k < nextAddressId)
    && (forall j, k | j in addresses && k in addresses && addresses[j].isDefault && addresses[k].isDefault
          && addresses[j].userId == addresses[k].userId :: j == k)
  }

  /** The two cart tables with their id counters, as one value: the state the cart operations change. */
  datatype CartTables = CartTables(carts: map<int, Cart>, nextCartId: int, items: map<(int, int), CartItem>, nextItemId: int)

  /** The address table with its id counter, as one value: the state the address handlers change. */
  datatype AddressBook = AddressBook(addresses: map<int, Address>, nextId: int)

  /** Both tables well formed, and every line belongs to an existing cart (foreign key). */
  ghost predicate CartTablesWellFormed(s: CartTables, userCount: int, productCount: int)
  {
    && CartsWellFormed(s.carts, s.nextCartId, userCount)
    && CartItemsWellFormed(s.items, s.nextItemId, productCount)
    && (forall k | k in s.items :: exists u | u in s.carts :: s.carts[u].id == k.0)
  }

  class Database {
    var categories: seq<Category>
    var products: seq<Product>
    var users: seq<User>
    var carts: map<int, Cart>
    var nextCartId: int
    var cartItems: map<(int, int), CartItem>
    var nextCartItemId: int
    var addresses: map<int, Address>
    var nextAddressId: int

    ghost predicate Valid()
      reads this
    {
      && CategoriesWellFormed(categories)
      && ProductsWellFormed(products, |categories|)
      && UsersWellFormed(users)
      && CartTablesWellFormed(CartState(), |users|, |products|)
      && AddressesWellFormed(addresses, nextAddressId)
      && (forall k | k in addresses :: 1 <= addresses[k].userId <= |users|)
    }

    function CartState(): CartTables
      reads this
    {
      CartTables(carts, nextCartId, cartItems, nextCartItemId)
    }

    function AddressState(): AddressBook
      reads this
    {
      AddressBook(addresses, nextAddressId)
    }

    /** Writes the address table; the caller shows that the new table keeps its invariants. */
    method StoreAddresses(a: map<int, Address>)
      requires Valid()
      requires AddressesWellFormed(a, nextAddressId)
      requires forall k | k in a :: 1 <= a[k].userId <= |users|
      modifies this`addresses
      ensures Valid() && addresses == a
    {
      addresses := a;
    }

    /** An empty database, as after the migrations ran. */
    constructor ()
      ensures Valid()
      ensures categories == [] && products == [] && users == []
      ensures carts == map[] && cartItems == map[] && addresses == map[]
    {
      categories, products, users := [], [], [];
      carts, nextCartId := map[], 1;
      cartItems, nextCartItemId := map[], 1;
      addresses, nextAddressId := map[], 1;
    }
  }
}
