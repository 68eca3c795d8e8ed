/** controllers/ProductController.js: argument parsing for the cart handlers, the `includeDeleted`
    gate, and the mapping of the service's answers to HTTP statuses. The handlers look for the bare
    messages "Admin yetkisi gerekli" and "Product not found", but the service always rethrows them
    behind a prefix, so the 403 and 404 branches are never taken. */
module ProductController {
  import opened Wrappers
  import opened Js
  import opened Records
  import opened Database
  import opened Http
  import opened ProductRepository
  import opened ProductService

  /** The `TypeError` JavaScript throws when `.role` is read from an absent `req.user`. */
  const UserUndefined := "Cannot read properties of undefined (reading 'role')"

  /** `req.query.includeDeleted === 'true' && req.user.role === 'ADMIN'`. `&&` reads `req.user` only
      when the query is `'true'`, and then throws if there is no user. The listing route runs without
      the authentication middleware, so there never is one. */
  function IncludeDeleted(query: JsValue, user: Option<Role>): (r: Result<bool>)
    ensures r.Err? <==> query == Str("true") && user.None?
    ensures r.Ok? ==> (r.value <==> query == Str("true") && user == Some(ADMIN))
  {
    if !StrictEquals(query, Str("true")) then Ok(false)
    else if user.None? then Err(UserUndefined)
    else Ok(user.value == ADMIN)
  }

  /** `getAllProducts`: 200 with the listing, or 500 when the gate throws. */
  function GetAllReply(t: seq<Product>, query: JsValue, user: Option<Role>): (r: Reply<seq<Product>>)
    ensures r.status == 200 || r.status == 500
    ensures user.None? && query == Str("true") ==> r == Reply(500, Err(UserUndefined))
    ensures user.None? && query != Str("true") ==> r == Reply(200, Ok(FindAll(t, false)))
    ensures r.status == 200 ==> r.body.Ok? && (r.body.value == t || forall x | x in r.body.value :: !x.isDeleted)
  {
    match IncludeDeleted(query, user)
    case Err(m) => Reply(500, Err(m))
    case Ok(includeDeleted) => Reply(200, Ok(FindAll(t, includeDeleted)))
  }

  /** `createProduct`: 201, or 400 for every failure; a non-admin gets 400, never 403. */
  function CreateReply(users: seq<User>, t: seq<Product>, categoryCount: int, data: NewProduct, userId: int): (r: Reply<Product>)
    requires UsersWellFormed(users)
    ensures r.body == CreateProductVerdict(users, t, categoryCount, data, userId)
    ensures r.status == (if r.body.Ok? then 201 else 400)
    ensures !IsAdmin(users, userId) ==> r.status == 400
  {
    var answer := CreateProductVerdict(users, t, categoryCount, data, userId);
    if answer.Ok? then Reply(201, answer)
    else Reply(if answer.msg == AdminRequired then 403 else 400, answer)
  }

  /** `getProductById`: 200 when found, soft-deleted or not; a missing product gives 500, never 404. */
  function GetByIdReply(t: seq<Product>, id: string): (r: Reply<Product>)
    requires forall i | 0 <= i < |t| :: t[i].id == i + 1
    ensures r.body == GetProductById(t, id)
    ensures r.status == 200 <==> ParseInt(id).Some? && 1 <= ParseInt(id).value <= |t|
    ensures r.status != 200 ==> r.status == 500
  {
    var answer := GetProductById(t, id);
    if answer.Ok? then Reply(200, answer)
    else Reply(if answer.msg == NotFound then 404 else 500, answer)
  }

  /** `updateProduct`: 200, or 400 for every failure, including a non-admin caller and a missing product. */
  function UpdateReply(users: seq<User>, t: seq<Product>, categoryCount: int, id: string, patch: ProductPatch, userId: int): (r: Reply<Product>)
    requires UsersWellFormed(users)
    requires forall i | 0 <= i < |t| :: t[i].id == i + 1
    ensures r.body == UpdateProductVerdict(users, t, categoryCount, id, patch, userId)
    ensures r.status == (if r.body.Ok? then 200 else 400)
  {
    var answer := UpdateProductVerdict(users, t, categoryCount, id, patch, userId);
    if answer.Ok? then Reply(200, answer)
    else if answer.msg == AdminRequired then Reply(403, answer)
    else Reply(if answer.msg == NotFound then 404 else 400, answer)
  }

  /** `deleteProduct`: 204, or 500 for every failure, including a non-admin caller and a missing product. */
  function DeleteReply(users: seq<User>, t: seq<Product>, id: string, userId: int): (r: Reply<Product>)
    requires UsersWellFormed(users)
    requires forall i | 0 <= i < |t| :: t[i].id == i + 1
    ensures r.body == DeleteProductVerdict(users, t, id, userId)
    ensures r.status == (if r.body.Ok? then 204 else 500)
  {
    var answer := DeleteProductVerdict(users, t, id, userId);
    if answer.Ok? then Reply(204, answer)
    else if answer.msg == AdminRequired then Reply(403, answer)
    else Reply(if answer.msg == NotFound then 404 else 500, answer)
  }

  /** `getProductsByCategory`: 200 with the live products of the category, or 500 for a `NaN` id. */
  function ByCategoryReply(t: seq<Product>, categoryId: string): (r: Reply<seq<Product>>)
    ensures r.status == 200 <==> ParseInt(categoryId).Some?
    ensures r.status != 200 ==> r.status == 500
    ensures r.body == GetProductsByCategory(t, categoryId)
  {
    var answer := GetProductsByCategory(t, categoryId);
    Reply(if answer.Ok? then 200 else 500, answer)
  }

  // ---------------------------------------------------------------------------------------------
  // Cart handlers: any failure gives 400
  // ---------------------------------------------------------------------------------------------

  /** The message standing in for the failures a string `quantity` leads to further down. */
  const QuantityNotNumber := "quantity is not a number"

  /** `quantity` as `addToCart` sees it when it is a number: the default parameter replaces
      `undefined` with 1 and a number is kept. `null` takes its own path (`AddNullQuantitySpec`);
      a string is not modelled. */
  function AddQuantity(v: JsValue): (q: Option<int>)
    ensures v.Undefined? ==> q == Some(1)
    ensures v.Number? ==> q == Some(v.n)
    ensures v.Null? || v.Str? ==> q.None?
  {
    match v
    case Undefined => Some(1)
    case Number(n) => Some(n)
    case _ => None
  }

  /** `addToCart`: `parseInt(productId)` from the body, then the service; 201 or 400. */
  function AddToCartReply(products: seq<Product>, userCount: int, s: CartTables, userId: int, productId: JsValue, quantity: JsValue): (r: (Reply<CartItem>, CartTables))
    requires forall i | 0 <= i < |products| :: products[i].id == i + 1
    requires CartTablesWellFormed(s, userCount, |products|)
    ensures r.0.status == 201 || r.0.status == 400
    ensures r.0.status == 201 <==> r.0.body.Ok?
    ensures productId.Undefined? || productId.Null? ==> r.0.status == 400 && r.1 == s
    ensures AddQuantity(quantity).Some? ==>
              (r.0.body, r.1) == AddToCartSpec(products, userCount, s, userId, ParseInt(ToString(productId)), AddQuantity(quantity).value)
    ensures quantity.Null? ==>
              (r.0.body, r.1) == AddNullQuantitySpec(products, userCount, s, userId, ParseInt(ToString(productId)))
    ensures quantity.Str? ==> r.0.status == 400
  {
    ParseIntOfValue(productId);
    var p := ParseInt(ToString(productId));
    match quantity
    case Null =>
      var (answer, after) := AddNullQuantitySpec(products, userCount, s, userId, p);
      (Reply(if answer.Ok? then 201 else 400, answer), after)
    case Str(_) => (Reply(400, Err(AddPrefix + QuantityNotNumber)), s)
    case _ =>
      var (answer, after) := AddToCartSpec(products, userCount, s, userId, p, AddQuantity(quantity).value);
      (Reply(if answer.Ok? then 201 else 400, answer), after)
  }

  /** `removeFromCart`: `parseInt` of the route parameter, then the service; 204 or 400. */
  function RemoveFromCartReply(s: CartTables, userId: int, productId: string): (r: (Reply<CartItem>, CartTables))
    ensures r.0.status == (if r.0.body.Ok? then 204 else 400)
    ensures (r.0.body, r.1) == RemoveFromCartSpec(s, userId, ParseInt(productId))
  {
    var (answer, after) := RemoveFromCartSpec(s, userId, ParseInt(productId));
    (Reply(if answer.Ok? then 204 else 400, answer), after)
  }

  /** `getCart`: 200 with the cart, or 400 when the user has none. */
  function GetCartReply(products: seq<Product>, s: CartTables, userId: int): (r: Reply<CartView>)
    requires CartItemsWellFormed(s.items, s.nextItemId, |products|)
    ensures r.status == 200 <==> userId in s.carts
    ensures r.status != 200 ==> r.status == 400
    ensures r.body == GetCart(products, s, userId)
  {
    var answer := GetCart(products, s, userId);
    Reply(if answer.Ok? then 200 else 400, answer)
  }

  /** `updateCartItemQuantity` when the body has no `quantity`: the stock test `stock < undefined` is
      false, and Prisma leaves a field given as `undefined` unwritten, so the line comes back unchanged. */
  function UpdateWithoutQuantity(products: seq<Product>, s: CartTables, userId: int, productId: Option<int>): (r: Result<CartItem>)
    requires forall i | 0 <= i < |products| :: products[i].id == i + 1
    ensures r.Ok? <==> && userId in s.carts && productId.Some? && 1 <= productId.value <= |products|
                       && (s.carts[userId].id, productId.value) in s.items
    ensures r.Ok? ==> r.value == s.items[(s.carts[userId].id, productId.value)]
    ensures r.Err? ==> StartsWith(r.msg, QuantityPrefix)
  {
    if userId !in s.carts then Err(QuantityPrefix + NoCart)
    else
      match CartProduct(products, productId)
      case Err(m) => Err(QuantityPrefix + m)
      case Ok(_) =>
        var key := (s.carts[userId].id, productId.value);
        if key !in s.items then Err(QuantityPrefix + RecordNotFound) else Ok(s.items[key])
  }

  /** `updateCartItemQuantity`: `parseInt` of the route parameter, the body's `quantity` unparsed;
      200 or 400. */
  function UpdateQuantityReply(products: seq<Product>, s: CartTables, userId: int, productId: string, quantity: JsValue): (r: (Reply<CartItem>, CartTables))
    requires forall i | 0 <= i < |products| :: products[i].id == i + 1
    ensures r.0.status == (if r.0.body.Ok? then 200 else 400)
    ensures quantity.Number? ==> (r.0.body, r.1) == UpdateQuantitySpec(products, s, userId, ParseInt(productId), quantity.n)
    ensures quantity.Undefined? ==> r.0.body == UpdateWithoutQuantity(products, s, userId, ParseInt(productId)) && r.1 == s
    ensures !quantity.Number? && !quantity.Undefined? ==> r.0.status == 400 && r.1 == s
  {
    match quantity
    case Number(n) =>
      var (answer, after) := UpdateQuantitySpec(products, s, userId, ParseInt(productId), n);
      (Reply(if answer.Ok? then 200 else 400, answer), after)
    case Undefined =>
      var answer := UpdateWithoutQuantity(products, s, userId, ParseInt(productId));
      (Reply(if answer.Ok? then 200 else 400, answer), s)
    case _ => (Reply(400, Err(QuantityPrefix + QuantityNotNumber)), s)
  }
}
