/** services/ProductService.js: the admin guard around the product repository, the product queries,
    and the cart operations, which talk to the cart tables directly. Every error the service raises
    is rethrown with a prefix naming the operation. */
module ProductService {
  import opened Wrappers
  import opened Js
  import opened Records
  import opened Database
  import opened ProductRepository

  const CreatePrefix := "Error creating product: "
  const FetchAllPrefix := "Error fetching products: "
  const FetchPrefix := "Error fetching product: "
  const UpdatePrefix := "Error updating product: "
  const DeletePrefix := "Error deleting product: "
  const ByCategoryPrefix := "Error fetching products by category: "
  const AddPrefix := "Error adding to cart: "
  const RemovePrefix := "Error removing from cart: "
  const CartPrefix := "Error fetching cart: "
  const QuantityPrefix := "Error updating cart item quantity: "

  const AdminRequired := "Admin yetkisi gerekli"
  const NotFound := "Product not found"
  const OutOfStock := "Yetersiz stok"
  const NoCart := "Sepet bulunamadı"

  // ---------------------------------------------------------------------------------------------
  // Products
  // ---------------------------------------------------------------------------------------------

  /** The caller is a user with the admin role, soft-deleted or not. */
  predicate IsAdmin(users: seq<User>, userId: int)
    ensures UsersWellFormed(users) ==> (IsAdmin(users, userId) <==> 1 <= userId <= |users| && users[userId - 1].role == ADMIN)
  {
    exists u :: u in users && u.id == userId && u.role == ADMIN
  }

  /** `checkAdminAccess(userId)`: the message it throws, if any. A soft-deleted admin still passes,
      since `findUnique` does not look at `isDeleted`. */
  function CheckAdminAccess(users: seq<User>, userId: int): (e: Option<string>)
    requires UsersWellFormed(users)
    ensures e.None? <==> IsAdmin(users, userId)
    ensures e.Some? ==> e.value == AdminRequired
  {
    if 1 <= userId <= |users| && users[userId - 1].role == ADMIN then None
    else Some(AdminRequired)
  }

  /** What `createProduct(data, userId)` answers: only an admin may create, and the category must exist. */
  function CreateProductVerdict(users: seq<User>, t: seq<Product>, categoryCount: int, data: NewProduct, userId: int): (r: Result<Product>)
    requires UsersWellFormed(users)
    ensures r.Ok? <==> IsAdmin(users, userId) && 1 <= data.categoryId <= categoryCount
    ensures r.Ok? ==> r.value == Product(|t| + 1, data.name, data.stock, data.categoryId, userId, false)
    ensures !IsAdmin(users, userId) ==> r == Err(CreatePrefix + AdminRequired)
    ensures r.Err? ==> StartsWith(r.msg, CreatePrefix)
  {
    match CheckAdminAccess(users, userId)
    case Some(m) => Err(CreatePrefix + m)
    case None => Rethrow(CreatePrefix, CreateOutcome(t, categoryCount, data, userId))
  }

  /** What `getProductById(id)` answers for the raw argument `id`; soft-deleted products are found. */
  function GetProductById(t: seq<Product>, id: string): (r: Result<Product>)
    requires forall i | 0 <= i < |t| :: t[i].id == i + 1
    ensures r.Ok? <==> ParseInt(id).Some? && 1 <= ParseInt(id).value <= |t|
    ensures r.Ok? ==> r.value in t && r.value.id == ParseInt(id).value
    ensures ParseInt(id).Some? && !(1 <= ParseInt(id).value <= |t|) ==> r == Err(FetchPrefix + NotFound)
    ensures r.Err? ==> StartsWith(r.msg, FetchPrefix)
  {
    match ParseInt(id)
    case None => Err(FetchPrefix + InvalidArgument)
    case Some(n) =>
      match FindById(t, n)
      case None => Err(FetchPrefix + NotFound)
      case Some(product) => Ok(product)
  }

  /** What `getProductsByCategory(categoryId)` answers: the live products filed directly under the
      category; a `NaN` id is refused by the query builder. */
  function GetProductsByCategory(t: seq<Product>, categoryId: string): (r: Result<seq<Product>>)
    ensures r.Ok? <==> ParseInt(categoryId).Some?
    ensures r.Ok? ==> forall x :: x in r.value <==> x in t && !x.isDeleted && x.categoryId == ParseInt(categoryId).value
    ensures r.Err? ==> r.msg == ByCategoryPrefix + InvalidArgument
  {
    match ParseInt(categoryId)
    case None => Err(ByCategoryPrefix + InvalidArgument)
    case Some(n) => Ok(FindByCategory(t, n))
  }

  /** What `updateProduct(id, data, userId)` answers: the admin check, then the lookup, then the write.
      A soft-deleted product can still be updated. */
  function UpdateProductVerdict(users: seq<User>, t: seq<Product>, categoryCount: int, id: string, patch: ProductPatch, userId: int): (r: Result<Product>)
    requires UsersWellFormed(users)
    requires forall i | 0 <= i < |t| :: t[i].id == i + 1
    ensures r.Ok? <==> && IsAdmin(users, userId)
                       && ParseInt(id).Some? && 1 <= ParseInt(id).value <= |t|
                       && (patch.categoryId.Some? ==> 1 <= patch.categoryId.value <= categoryCount)
    ensures r.Ok? ==> r.value == PatchedProduct(t[ParseInt(id).value - 1], patch)
    ensures !IsAdmin(users, userId) ==> r == Err(UpdatePrefix + AdminRequired)
    ensures IsAdmin(users, userId) && ParseInt(id).Some? && !(1 <= ParseInt(id).value <= |t|) ==> r == Err(UpdatePrefix + NotFound)
    ensures r.Err? ==> StartsWith(r.msg, UpdatePrefix)
  {
    match CheckAdminAccess(users, userId)
    case Some(m) => Err(UpdatePrefix + m)
    case None =>
      match ParseInt(id)
      case None => Err(UpdatePrefix + InvalidArgument)
      case Some(n) =>
        if FindById(t, n).None? then Err(UpdatePrefix + NotFound)
        else Rethrow(UpdatePrefix, UpdateOutcome(t, categoryCount, n, patch))
  }

  /** What `deleteProduct(id, userId)` answers: the product, now soft-deleted. */
  function DeleteProductVerdict(users: seq<User>, t: seq<Product>, id: string, userId: int): (r: Result<Product>)
    requires UsersWellFormed(users)
    requires forall i | 0 <= i < |t| :: t[i].id == i + 1
    ensures r.Ok? <==> IsAdmin(users, userId) && ParseInt(id).Some? && 1 <= ParseInt(id).value <= |t|
    ensures r.Ok? ==> r.value == t[ParseInt(id).value - 1].(isDeleted := true)
    ensures !IsAdmin(users, userId) ==> r == Err(DeletePrefix + AdminRequired)
    ensures r.Err? ==> StartsWith(r.msg, DeletePrefix)
  {
    match CheckAdminAccess(users, userId)
    case Some(m) => Err(DeletePrefix + m)
    case None =>
      match ParseInt(id)
      case None => Err(DeletePrefix + InvalidArgument)
      case Some(n) => if FindById(t, n).None? then Err(DeletePrefix + NotFound) else Ok(t[n - 1].(isDeleted := true))
  }

  /** The table a successful delete leaves behind. */
  function AfterDelete(t: seq<Product>, r: Result<Product>): (t': seq<Product>)
    requires r.Ok? ==> 1 <= r.value.id <= |t|
    ensures |t'| == |t|
    ensures r.Err? ==> t' == t
    ensures r.Ok? ==> forall i | 0 <= i < |t| :: t'[i] == if i == r.value.id - 1 then r.value else t[i]
  {
    if r.Ok? then t[r.value.id - 1 := r.value] else t
  }

  /** Deleting a product a second time answers the same row and changes nothing more. */
  lemma DeleteProductIdempotent(users: seq<User>, t: seq<Product>, id: string, userId: int)
    requires UsersWellFormed(users)
    requires forall i | 0 <= i < |t| :: t[i].id == i + 1
    requires DeleteProductVerdict(users, t, id, userId).Ok?
    ensures var r := DeleteProductVerdict(users, t, id, userId);
            var t1 := AfterDelete(t, r);
            && (forall i | 0 <= i < |t1| :: t1[i].id == i + 1)
            && DeleteProductVerdict(users, t1, id, userId) == r
            && AfterDelete(t1, r) == t1
  {
    var r := DeleteProductVerdict(users, t, id, userId);
    var t1 := AfterDelete(t, r);
    assert forall i | 0 <= i < |t1| :: t1[i].id == i + 1;
  }

  // ---------------------------------------------------------------------------------------------
  // Carts
  // ---------------------------------------------------------------------------------------------

  /** The product id the controller hands to the cart operations is `parseInt(...)` of the request,
      a number or `NaN` (`None`). `getProductById` parses it once more, through `String(p)`. */
  function NumberArg(p: Option<int>): string
  {
    if p.Some? then IntToDecimal(p.value) else "NaN"
  }

  /** Parsing a parsed id again gives it back, so the second `parseInt` changes nothing. */
  lemma NumberArgRoundTrip(p: Option<int>)
    ensures ParseInt(NumberArg(p)) == p
  {
    if p.Some? {
      ParseIntOfDecimal(p.value, []);
      assert IntToDecimal(p.value) + [] == IntToDecimal(p.value);
    } else {
      var s := NumberArg(p);
      assert TrimStart(s) == s;
      assert LeadingDigits(s) == [];
    }
  }

  /** The product the cart operations look up: `getProductById(productId)`. */
  function CartProduct(t: seq<Product>, productId: Option<int>): (r: Result<Product>)
    requires forall i | 0 <= i < |t| :: t[i].id == i + 1
    ensures r.Ok? <==> productId.Some? && 1 <= productId.value <= |t|
    ensures r.Ok? ==> r.value == t[productId.value - 1]
    ensures r.Err? ==> StartsWith(r.msg, FetchPrefix)
  {
    NumberArgRoundTrip(productId);
    GetProductById(t, NumberArg(productId))
  }

  /** `cart.findUnique({ userId })`, then `cart.create({ userId })` when there is none: the user's cart
      and the tables afterwards. Creating a cart for a user that does not exist breaks the foreign key. */
  function FindOrCreateCart(s: CartTables, userCount: int, userId: int): (r: Result<(Cart, CartTables)>)
    ensures r.Ok? <==> userId in s.carts || 1 <= userId <= userCount
    ensures r.Ok? ==> userId in r.value.1.carts && r.value.1.carts[userId] == r.value.0
    ensures r.Ok? ==> r.value.1.items == s.items && r.value.1.nextItemId == s.nextItemId
    ensures userId in s.carts ==> r == Ok((s.carts[userId], s))
    ensures userId !in s.carts && r.Ok? ==>
              && r.value.0 == Cart(s.nextCartId, userId)
              && r.value.1 == s.(carts := s.carts[userId := r.value.0], nextCartId := s.nextCartId + 1)
    ensures r.Err? ==> r.msg == ForeignKeyViolation
  {
    if userId in s.carts then Ok((s.carts[userId], s))
    else if 1 <= userId <= userCount then
      var cart := Cart(s.nextCartId, userId);
      Ok((cart, s.(carts := s.carts[userId := cart], nextCartId := s.nextCartId + 1)))
    else Err(ForeignKeyViolation)
  }

  /** Creating a cart keeps one cart per user and distinct cart ids. */
  lemma FindOrCreateCartKeepsWellFormed(s: CartTables, userCount: int, productCount: int, userId: int)
    requires CartTablesWellFormed(s, userCount, productCount)
    requires FindOrCreateCart(s, userCount, userId).Ok?
    ensures CartTablesWellFormed(FindOrCreateCart(s, userCount, userId).value.1, userCount, productCount)
  {
    var s1 := FindOrCreateCart(s, userCount, userId).value.1;
    if userId !in s.carts {
      forall u, v | u in s1.carts && v in s1.carts && u != v
        ensures s1.carts[u].id != s1.carts[v].id
      {
        if u != userId && v != userId {
          assert s1.carts[u] == s.carts[u] && s1.carts[v] == s.carts[v];
        }
      }
      forall k | k in s1.items
        ensures exists u | u in s1.carts :: s1.carts[u].id == k.0
      {
        var u :| u in s.carts && s.carts[u].id == k.0;
        assert s1.carts[u] == s.carts[u];
      }
    }
  }

  /** The quantity of the line for `key`, zero when the cart has no such line. */
  function LineQuantity(s: CartTables, key: (int, int)): int
  {
    if key in s.items then s.items[key].quantity else 0
  }

  /** The `cartItem.findUnique` on `(cartId, productId)` followed by the `update` of the line found
      (its quantity grows by `quantity`) or the `create` of a new line. */
  function Upsert(s: CartTables, cartId: int, productId: int, quantity: int): (r: (CartItem, CartTables))
    requires (cartId, productId) in s.items ==> s.items[(cartId, productId)].cartId == cartId && s.items[(cartId, productId)].productId == productId
    ensures r.0.cartId == cartId && r.0.productId == productId
    ensures r.0.quantity == LineQuantity(s, (cartId, productId)) + quantity
    ensures (cartId, productId) in s.items ==> r.0.id == s.items[(cartId, productId)].id
    ensures (cartId, productId) !in s.items ==> r.0.id == s.nextItemId
    ensures r.1 == s.(items := s.items[(cartId, productId) := r.0],
                      nextItemId := if (cartId, productId) in s.items then s.nextItemId else s.nextItemId + 1)
  {
    var key := (cartId, productId);
    if key in s.items then
      var item := s.items[key].(quantity := s.items[key].quantity + quantity);
      (item, s.(items := s.items[key := item]))
    else
      var item := CartItem(s.nextItemId, cartId, productId, quantity);
      (item, s.(items := s.items[key := item], nextItemId := s.nextItemId + 1))
  }

  lemma UpsertKeepsWellFormed(s: CartTables, userCount: int, productCount: int, cartId: int, productId: int, quantity: int)
    requires CartTablesWellFormed(s, userCount, productCount)
    requires 1 <= productId <= productCount
    requires exists u | u in s.carts :: s.carts[u].id == cartId
    ensures CartTablesWellFormed(Upsert(s, cartId, productId, quantity).1, userCount, productCount)
  {
  }

  /** The part of `addToCart` after the stock check: the user's cart found or created, then the line
      added to it. */
  function PutInCartSpec(s: CartTables, userCount: int, productCount: int, userId: int, productId: int, quantity: int): (r: (Result<CartItem>, CartTables))
    requires CartTablesWellFormed(s, userCount, productCount)
    ensures r.0.Ok? <==> userId in s.carts || 1 <= userId <= userCount
    ensures r.0.Err? ==> r.1 == s
  {
    match FindOrCreateCart(s, userCount, userId)
    case Err(m) => (Err(m), s)
    case Ok((cart, s1)) =>
      var (item, s2) := Upsert(s1, cart.id, productId, quantity);
      (Ok(item), s2)
  }

  /** `addToCart(userId, productId, quantity)`: the answer and the cart tables afterwards. The stock
      check compares the product's stock with the quantity being added, not with the line's total. */
  function AddToCartSpec(products: seq<Product>, userCount: int, s: CartTables, userId: int, productId: Option<int>, quantity: int): (r: (Result<CartItem>, CartTables))
    requires forall i | 0 <= i < |products| :: products[i].id == i + 1
    requires CartTablesWellFormed(s, userCount, |products|)
    ensures r.0.Ok? <==> && productId.Some? && 1 <= productId.value <= |products|
                         && quantity <= products[productId.value - 1].stock
                         && (userId in s.carts || 1 <= userId <= userCount)
    ensures r.0.Err? ==> r.1 == s && StartsWith(r.0.msg, AddPrefix)
    ensures r.0.Ok? ==> && r.0.value.productId == productId.value
                        && r.1.carts.Keys == s.carts.Keys + {userId}
                        && r.0.value.cartId == r.1.carts[userId].id
                        && r.1.items.Keys == s.items.Keys + {(r.0.value.cartId, productId.value)}
                        && r.1.items[(r.0.value.cartId, productId.value)] == r.0.value
                        && r.0.value.quantity == LineQuantity(s, (r.0.value.cartId, productId.value)) + quantity
                        && (forall k | k in s.items && k != (r.0.value.cartId, productId.value) :: r.1.items[k] == s.items[k])
  {
    match CartProduct(products, productId)
    case Err(m) => (Err(AddPrefix + m), s)
    case Ok(product) =>
      if product.stock < quantity then (Err(AddPrefix + OutOfStock), s)
      else
        var (answer, after) := PutInCartSpec(s, userCount, |products|, userId, productId.value, quantity);
        (Rethrow(AddPrefix, answer), after)
  }

  /** The message standing in for Prisma's refusal of a `null` value in the required `quantity`
      column. */
  const QuantityNull := "Argument `quantity` must not be null."

  /** `addToCart` called with `quantity` null: the default parameter does not replace `null`, and
      JavaScript reads it as 0 in `product.stock < null` and in `existingItem.quantity + null`. An
      existing line is therefore rewritten unchanged; a new line is refused by the database, after
      the user's cart may already have been created. */
  function AddNullQuantitySpec(products: seq<Product>, userCount: int, s: CartTables, userId: int, productId: Option<int>): (r: (Result<CartItem>, CartTables))
    requires forall i | 0 <= i < |products| :: products[i].id == i + 1
    requires CartTablesWellFormed(s, userCount, |products|)
    ensures r.0.Ok? <==> && productId.Some? && 1 <= productId.value <= |products|
                         && 0 <= products[productId.value - 1].stock
                         && userId in s.carts && (s.carts[userId].id, productId.value) in s.items
    ensures r.0.Ok? ==> r == (Ok(s.items[(s.carts[userId].id, productId.value)]), s)
    ensures r.0.Err? ==> StartsWith(r.0.msg, AddPrefix)
    ensures r.1 == s || (userId !in s.carts && FindOrCreateCart(s, userCount, userId) == Ok((Cart(s.nextCartId, userId), r.1)))
    ensures CartTablesWellFormed(r.1, userCount, |products|)
  {
    match CartProduct(products, productId)
    case Err(m) => (Err(AddPrefix + m), s)
    case Ok(product) =>
      if product.stock < 0 then (Err(AddPrefix + OutOfStock), s)
      else
        match FindOrCreateCart(s, userCount, userId)
        case Err(m) => (Err(AddPrefix + m), s)
        case Ok((cart, s1)) =>
          FindOrCreateCartKeepsWellFormed(s, userCount, |products|, userId);
          var key := (cart.id, productId.value);
          if key in s1.items then (Ok(s1.items[key]), s1)
          else (Err(AddPrefix + QuantityNull), s1)
  }

  /** Where `null` goes through, it behaves exactly like adding 0; where adding 0 would create a
      new line, `null` fails instead. */
  lemma NullQuantityActsAsZero(products: seq<Product>, userCount: int, s: CartTables, userId: int, productId: Option<int>)
    requires forall i | 0 <= i < |products| :: products[i].id == i + 1
    requires CartTablesWellFormed(s, userCount, |products|)
    ensures var lineExists := userId in s.carts && productId.Some? && (s.carts[userId].id, productId.value) in s.items;
            && (AddNullQuantitySpec(products, userCount, s, userId, productId).0.Ok? <==>
                  AddToCartSpec(products, userCount, s, userId, productId, 0).0.Ok? && lineExists)
            && (lineExists ==> AddNullQuantitySpec(products, userCount, s, userId, productId)
                                 == AddToCartSpec(products, userCount, s, userId, productId, 0))
  {
    if userId in s.carts && productId.Some? && (s.carts[userId].id, productId.value) in s.items {
      var key := (s.carts[userId].id, productId.value);
      assert s.items[key := s.items[key]] == s.items;
    }
  }

  /** `removeFromCart(userId, productId)`: the deleted line and the tables afterwards. */
  function RemoveFromCartSpec(s: CartTables, userId: int, productId: Option<int>): (r: (Result<CartItem>, CartTables))
    ensures r.0.Ok? <==> userId in s.carts && productId.Some? && (s.carts[userId].id, productId.value) in s.items
    ensures userId !in s.carts ==> r.0 == Err(RemovePrefix + NoCart)
    ensures r.0.Err? ==> r.1 == s && StartsWith(r.0.msg, RemovePrefix)
    ensures r.0.Ok? ==> && r.0.value == s.items[(s.carts[userId].id, productId.value)]
                        && r.1 == s.(items := s.items - {(s.carts[userId].id, productId.value)})
  {
    if userId !in s.carts then (Err(RemovePrefix + NoCart), s)
    else if productId.None? then (Err(RemovePrefix + InvalidArgument), s)
    else
      var key := (s.carts[userId].id, productId.value);
      if key !in s.items then (Err(RemovePrefix + RecordToDeleteMissing), s)
      else (Ok(s.items[key]), s.(items := s.items - {key}))
  }

  /** `updateCartItemQuantity(userId, productId, quantity)`: the quantity is set, not added, and only
      after the stock check; the line must already exist. */
  function UpdateQuantitySpec(products: seq<Product>, s: CartTables, userId: int, productId: Option<int>, quantity: int): (r: (Result<CartItem>, CartTables))
    requires forall i | 0 <= i < |products| :: products[i].id == i + 1
    ensures r.0.Ok? <==> && userId in s.carts && productId.Some? && 1 <= productId.value <= |products|
                         && quantity <= products[productId.value - 1].stock
                         && (s.carts[userId].id, productId.value) in s.items
    ensures userId !in s.carts ==> r.0 == Err(QuantityPrefix + NoCart)
    ensures r.0.Err? ==> r.1 == s && StartsWith(r.0.msg, QuantityPrefix)
    ensures r.0.Ok? ==> && r.0.value == s.items[(s.carts[userId].id, productId.value)].(quantity := quantity)
                        && r.1 == s.(items := s.items[(s.carts[userId].id, productId.value) := r.0.value])
  {
    if userId !in s.carts then (Err(QuantityPrefix + NoCart), s)
    else
      match CartProduct(products, productId)
      case Err(m) => (Err(QuantityPrefix + m), s)
      case Ok(product) =>
        if product.stock < quantity then (Err(QuantityPrefix + OutOfStock), s)
        else
          var key := (s.carts[userId].id, productId.value);
          if key !in s.items then (Err(QuantityPrefix + RecordNotFound), s)
          else
            var item := s.items[key].(quantity := quantity);
            (Ok(item), s.(items := s.items[key := item]))
  }

  /** What `getCart(userId)` returns: the user's cart with its lines, each joined with its product. */
  datatype CartView = CartView(cart: Cart, lines: map<(int, int), (CartItem, Product)>)

  function GetCart(products: seq<Product>, s: CartTables, userId: int): (r: Result<CartView>)
    requires CartItemsWellFormed(s.items, s.nextItemId, |products|)
    ensures r.Ok? <==> userId in s.carts
    ensures r.Err? ==> r.msg == CartPrefix + NoCart
    ensures r.Ok? ==> && r.value.cart == s.carts[userId]
                      && (forall k :: k in r.value.lines <==> k in s.items && k.0 == s.carts[userId].id)
                      && (forall k | k in r.value.lines :: r.value.lines[k] == (s.items[k], products[k.1 - 1]))
  {
    if userId !in s.carts then Err(CartPrefix + NoCart)
    else
      var cart := s.carts[userId];
      Ok(CartView(cart, map k | k in s.items && k.0 == cart.id :: (s.items[k], products[k.1 - 1])))
  }

  /** Every cart operation keeps the cart tables well formed: one cart per user, distinct cart ids,
      one line per product in a cart, and every line naming an existing product. */
  lemma AddToCartKeepsWellFormed(products: seq<Product>, userCount: int, s: CartTables, userId: int, productId: Option<int>, quantity: int)
    requires forall i | 0 <= i < |products| :: products[i].id == i + 1
    requires CartTablesWellFormed(s, userCount, |products|)
    ensures CartTablesWellFormed(AddToCartSpec(products, userCount, s, userId, productId, quantity).1, userCount, |products|)
  {
    if AddToCartSpec(products, userCount, s, userId, productId, quantity).0.Ok? {
      FindOrCreateCartKeepsWellFormed(s, userCount, |products|, userId);
      var (cart, s1) := FindOrCreateCart(s, userCount, userId).value;
      UpsertKeepsWellFormed(s1, userCount, |products|, cart.id, productId.value, quantity);
    }
  }

  lemma RemoveFromCartKeepsWellFormed(s: CartTables, userCount: int, productCount: int, userId: int, productId: Option<int>)
    requires CartTablesWellFormed(s, userCount, productCount)
    ensures CartTablesWellFormed(RemoveFromCartSpec(s, userId, productId).1, userCount, productCount)
  {
  }

  lemma UpdateQuantityKeepsWellFormed(products: seq<Product>, userCount: int, s: CartTables, userId: int, productId: Option<int>, quantity: int)
    requires forall i | 0 <= i < |products| :: products[i].id == i + 1
    requires CartTablesWellFormed(s, userCount, |products|)
    ensures CartTablesWellFormed(UpdateQuantitySpec(products, s, userId, productId, quantity).1, userCount, |products|)
  {
  }

  /** Adding a product that is not yet in the cart and then removing it leaves the cart lines as
      they were. */
  lemma AddThenRemove(products: seq<Product>, userCount: int, s: CartTables, userId: int, productId: Option<int>, quantity: int)
    requires forall i | 0 <= i < |products| :: products[i].id == i + 1
    requires CartTablesWellFormed(s, userCount, |products|)
    requires AddToCartSpec(products, userCount, s, userId, productId, quantity).0.Ok?
    requires userId in s.carts ==> (s.carts[userId].id, productId.value) !in s.items
    ensures var (added, s1) := AddToCartSpec(products, userCount, s, userId, productId, quantity);
            var (removed, s2) := RemoveFromCartSpec(s1, userId, productId);
            removed == added && s2.items == s.items
  {
    var (added, s1) := AddToCartSpec(products, userCount, s, userId, productId, quantity);
    var key := (added.value.cartId, productId.value);
    if userId !in s.carts {
      assert key !in s.items;
    }
    assert s1.items - {key} == s.items;
  }

  /** The stock check looks only at the quantity being added: a line already holding the whole stock
      grows past it. */
  lemma IncrementSkipsStockCheck()
    ensures var products := [Product(1, "Kulaklık", 1, 1, 1, false)];
            var s := CartTables(map[1 := Cart(1, 1)], 2, map[(1, 1) := CartItem(1, 1, 1, 1)], 2);
            && CartTablesWellFormed(s, 1, 1)
            && var r := AddToCartSpec(products, 1, s, 1, Some(1), 1);
               r.0.Ok? && r.0.value.quantity == 2 > products[0].stock
  {
    var s := CartTables(map[1 := Cart(1, 1)], 2, map[(1, 1) := CartItem(1, 1, 1, 1)], 2);
    assert s.carts[1].id == 1;
    assert CartTablesWellFormed(s, 1, 1);
  }

  /** Nothing bounds the quantity from below: a negative quantity passes the stock check and
      shrinks the line, here below zero. */
  lemma NegativeQuantityAccepted(products: seq<Product>, userCount: int, s: CartTables, userId: int, p: int, quantity: int)
    requires forall i | 0 <= i < |products| :: products[i].id == i + 1
    requires CartTablesWellFormed(s, userCount, |products|)
    requires 1 <= p <= |products| && products[p - 1].stock >= 0
    requires userId in s.carts && (s.carts[userId].id, p) !in s.items
    requires quantity < 0
    ensures var r := AddToCartSpec(products, userCount, s, userId, Some(p), quantity);
            r.0.Ok? && r.0.value.quantity < 0
  {
  }

  /** A soft-deleted product can still be put into a cart, since the lookup does not filter it. */
  lemma DeletedProductAddable(products: seq<Product>, userCount: int, s: CartTables, userId: int, p: int)
    requires forall i | 0 <= i < |products| :: products[i].id == i + 1
    requires CartTablesWellFormed(s, userCount, |products|)
    requires 1 <= p <= |products| && products[p - 1].isDeleted && products[p - 1].stock >= 1
    requires userId in s.carts
    ensures AddToCartSpec(products, userCount, s, userId, Some(p), 1).0.Ok?
  {
  }

  class ProductService {
    const db: Database

    ghost predicate Valid()
      reads this, db
    {
      db.Valid()
    }

    constructor (db: Database)
      requires db.Valid()
      ensures Valid() && this.db == db
    {
      this.db := db;
    }

    /** `createProduct(data, userId)` */
    method CreateProduct(data: NewProduct, userId: int) returns (r: Result<Product>)
      requires Valid()
      modifies db`products
      ensures Valid()
      ensures r == CreateProductVerdict(old(db.users), old(db.products), |db.categories|, data, userId)
      ensures db.products == if r.Ok? then old(db.products) + [r.value] else old(db.products)
    {
      var denied := CheckAdminAccess(db.users, userId);
      if denied.Some? {
        return Err(CreatePrefix + denied.value);
      }
      var created := ProductRepository.Create(db, data, userId);
      r := Rethrow(CreatePrefix, created);
    }

    /** `updateProduct(id, data, userId)` */
    method UpdateProduct(id: string, patch: ProductPatch, userId: int) returns (r: Result<Product>)
      requires Valid()
      modifies db`products
      ensures Valid()
      ensures r == UpdateProductVerdict(old(db.users), old(db.products), |db.categories|, id, patch, userId)
      ensures db.products == if r.Ok? then old(db.products)[r.value.id - 1 := r.value] else old(db.products)
    {
      var denied := CheckAdminAccess(db.users, userId);
      if denied.Some? {
        return Err(UpdatePrefix + denied.value);
      }
      var parsed := ParseInt(id);
      if parsed.None? {
        return Err(UpdatePrefix + InvalidArgument);
      }
      if FindById(db.products, parsed.value).None? {
        return Err(UpdatePrefix + NotFound);
      }
      var updated := ProductRepository.Update(db, parsed.value, patch);
      r := Rethrow(UpdatePrefix, updated);
    }

    /** `deleteProduct(id, userId)`: a soft delete. */
    method DeleteProduct(id: string, userId: int) returns (r: Result<Product>)
      requires Valid()
      modifies db`products
      ensures Valid()
      ensures r == DeleteProductVerdict(old(db.users), old(db.products), id, userId)
      ensures db.products == AfterDelete(old(db.products), r)
    {
      var denied := CheckAdminAccess(db.users, userId);
      if denied.Some? {
        return Err(DeletePrefix + denied.value);
      }
      var parsed := ParseInt(id);
      if parsed.None? {
        return Err(DeletePrefix + InvalidArgument);
      }
      if FindById(db.products, parsed.value).None? {
        return Err(DeletePrefix + NotFound);
      }
      r := ProductRepository.Delete(db, parsed.value);
    }

    /** `addToCart(userId, productId, quantity)`: the stock check, the cart found or created, then
        the line incremented or created. */
    method AddToCart(userId: int, productId: Option<int>, quantity: int) returns (r: Result<CartItem>)
      requires Valid()
      modifies db`carts, db`nextCartId, db`cartItems, db`nextCartItemId
      ensures Valid()
      ensures (r, db.CartState()) == AddToCartSpec(db.products, |db.users|, old(db.CartState()), userId, productId, quantity)
    {
      var product := GetProductById(db.products, NumberArg(productId));
      assert product == CartProduct(db.products, productId);
      if product.Err? {
        return Err(AddPrefix + product.msg);
      }
      if product.value.stock < quantity {
        return Err(AddPrefix + OutOfStock);
      }
      var put := PutInCart(userId, productId.value, quantity);
      r := Rethrow(AddPrefix, put);
    }

    /** The cart found or created, then the line added, inside `addToCart`. */
    method PutInCart(userId: int, productId: int, quantity: int) returns (r: Result<CartItem>)
      requires Valid() && 1 <= productId <= |db.products|
      modifies db`carts, db`nextCartId, db`cartItems, db`nextCartItemId
      ensures Valid()
      ensures (r, db.CartState()) == PutInCartSpec(old(db.CartState()), |db.users|, |db.products|, userId, productId, quantity)
    {
      var cart := FindOrCreateUserCart(userId);
      if cart.Err? {
        return Err(cart.msg);
      }
      var item := UpsertLine(cart.value.id, productId, quantity);
      r := Ok(item);
    }

    /** The cart lookup and lazy creation inside `addToCart`. */
    method FindOrCreateUserCart(userId: int) returns (r: Result<Cart>)
      requires Valid()
      modifies db`carts, db`nextCartId
      ensures Valid()
      ensures var expected := FindOrCreateCart(old(db.CartState()), |db.users|, userId);
              && (r.Ok? <==> expected.Ok?)
              && (r.Ok? ==> r.value == expected.value.0 && db.CartState() == expected.value.1)
              && (r.Err? ==> r.msg == expected.msg && db.CartState() == old(db.CartState()))
    {
      if userId in db.carts {
        return Ok(db.carts[userId]);
      }
      if !(1 <= userId <= |db.users|) {
        return Err(ForeignKeyViolation);
      }
      FindOrCreateCartKeepsWellFormed(db.CartState(), |db.users|, |db.products|, userId);
      var cart := Cart(db.nextCartId, userId);
      db.carts := db.carts[userId := cart];
      db.nextCartId := db.nextCartId + 1;
      r := Ok(cart);
    }

    /** The line lookup inside `addToCart`, followed by the increment or the creation of the line. */
    method UpsertLine(cartId: int, productId: int, quantity: int) returns (item: CartItem)
      requires Valid() && 1 <= productId <= |db.products|
      requires exists u | u in db.carts :: db.carts[u].id == cartId
      modifies db`cartItems, db`nextCartItemId
      ensures Valid()
      ensures (item, db.CartState()) == Upsert(old(db.CartState()), cartId, productId, quantity)
    {
      UpsertKeepsWellFormed(db.CartState(), |db.users|, |db.products|, cartId, productId, quantity);
      var (line, after) := Upsert(db.CartState(), cartId, productId, quantity);
      item := line;
      db.cartItems, db.nextCartItemId := after.items, after.nextItemId;
    }

    /** `removeFromCart(userId, productId)`: a hard delete of the line. */
    method RemoveFromCart(userId: int, productId: Option<int>) returns (r: Result<CartItem>)
      requires Valid()
      modifies db`cartItems
      ensures Valid()
      ensures (r, db.CartState()) == RemoveFromCartSpec(old(db.CartState()), userId, productId)
    {
      if userId !in db.carts {
        return Err(RemovePrefix + NoCart);
      }
      if productId.None? {
        return Err(RemovePrefix + InvalidArgument);
      }
      var key := (db.carts[userId].id, productId.value);
      if key !in db.cartItems {
        return Err(RemovePrefix + RecordToDeleteMissing);
      }
      r := Ok(db.cartItems[key]);
      db.cartItems := db.cartItems - {key};
    }

    /** `updateCartItemQuantity(userId, productId, quantity)` */
    method UpdateCartItemQuantity(userId: int, productId: Option<int>, quantity: int) returns (r: Result<CartItem>)
      requires Valid()
      modifies db`cartItems
      ensures Valid()
      ensures (r, db.CartState()) == UpdateQuantitySpec(db.products, old(db.CartState()), userId, productId, quantity)
    {
      if userId !in db.carts {
        return Err(QuantityPrefix + NoCart);
      }
      NumberArgRoundTrip(productId);
      var product := GetProductById(db.products, NumberArg(productId));
      if product.Err? {
        return Err(QuantityPrefix + product.msg);
      }
      if product.value.stock < quantity {
        return Err(QuantityPrefix + OutOfStock);
      }
      var key := (db.carts[userId].id, productId.value);
      if key !in db.cartItems {
        return Err(QuantityPrefix + RecordNotFound);
      }
      var item := db.cartItems[key].(quantity := quantity);
      db.cartItems := db.cartItems[key := item];
      r := Ok(item);
    }
  }
}
