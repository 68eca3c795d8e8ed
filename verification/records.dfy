/** The rows of the shop's relational schema, one datatype per table. Prices, images, reviews and
    timestamps are not part of this model. */
module Records {
  import opened Wrappers

  datatype Role = ADMIN | USER

  /** A user account. The password is kept only as the opaque hash the controller stores. */
  datatype User = User(id: int, name: string, email: string, passwordHash: string, role: Role, isDeleted: bool)

  /** A category; `parentId` refers to another category of the same table, `None` for a root. */
  datatype Category = Category(id: int, name: string, description: string, parentId: Option<int>, isDeleted: bool)

  /** A product with its stock count; `userId` is the admin who created it. */
  datatype Product = Product(id: int, name: string, stock: int, categoryId: int, userId: int, isDeleted: bool)

  /** A user's cart; a user has at most one (the `userId` column is unique). */
  datatype Cart = Cart(id: int, userId: int)

  /** A line of a cart; `(cartId, productId)` is unique. */
  datatype CartItem = CartItem(id: int, cartId: int, productId: int, quantity: int)

  /** The free-text fields of an address (`address` in the schema is called `line` here). */
  datatype AddressDetails = AddressDetails(title: string, fullName: string, phone: string, city: string, district: string, line: string)

  datatype Address = Address(id: int, userId: int, details: AddressDetails, isDefault: bool)
}
