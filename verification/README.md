# e-avm core, modelled in Dafny

This project models the server side of the e-avm shop. Customers register, keep an address book, browse a category tree and a product list, and fill a shopping cart; administrators maintain categories and products. The model covers the layers that hold the shop's rules:

- **Category tree** (`services/CategoryService.js`, `repositories/CategoryRepository.js`)
  - creation with a unique name and an existing parent;
  - updates guarded by the duplicate-name, self-parent, descendant-parent and missing-parent checks;
  - the cascading soft delete over every descendant;
  - the recursive `getAllSubcategories`;
  - the two-pass `buildCategoryTree`.
- **Products and cart** (`services/ProductService.js`, `repositories/ProductRepository.js`)
  - the admin check, plus creating, updating and soft-deleting products;
  - listing products, with or without the deleted ones, and listing them by category;
  - adding to the cart, with its stock check, its find-or-create cart and its upsert of the line;
  - removing a line, reading the cart and changing a line's quantity.
- **HTTP layer** (`controllers/*.js`)
  - which status code each handler answers with, and how it turns route and body values into numbers through `parseInt`;
  - the `includeDeleted` gate on the public listings;
  - registration, the profile update and the address book with its single default address.

The database is one `Database` class (`database.dfy`). Its fields are the tables:

- Tables that only ever soft-delete are sequences in id order, since autoincrement ids start at 1. This assumes that no insert was ever refused (see "## Left out").
- Cart lines, keyed by (cart, product), are maps.
- Carts, keyed by user, are maps.
- Addresses, which are hard-deleted, are maps.

`Database.Valid` states the keys, the id counters and the foreign keys. Each write method:

- changes only the fields its `modifies` clause names;
- keeps `Valid`;
- is proved equal to a pure specification function of the old state, and the properties are proved about those functions.

Tree acyclicity is carried by a ghost rank map. Every live category ranks below its parent (`CategoryTree.Ranked`). That is what makes the recursion in `getAllSubcategories` terminate, and what every category write preserves. The rank map says nothing about soft-deleted rows. A second invariant, `CategoryTree.LiveParents`, says that every live category hangs under a live parent. Together they rule out any cycle through a live category (`CategoryTree.LiveNeverOwnAncestor`).

Values coming from a request are modelled as follows:

- A request value is `Js.JsValue`.
- `parseInt` is `Js.ParseInt`; its `NaN` is `None`.
- A database failure becomes an `Err` carrying a message.
- A handler's answer is `Http.Reply(status, body)`.
- The authenticated caller is the user id that `middlewares/auth.js` puts on the request. The handlers behind it require `AccountController.Authenticated`: the user exists and is not soft-deleted.

## Model

| member | source | states |
|---|---|---|
| Wrappers.Rethrow | services/CategoryService.js:21-23 | a caught error is re-thrown with the service's prefix; a success passes through unchanged |
| Js.ParseInt | services/CategoryService.js:37 | a string of decimal digits alone parses to its value; a string that is empty after white space is `NaN` |
| Js.ParseIntOfDecimal | services/CategoryService.js:37 | `parseInt(String(n) + rest)` is `n` whenever `rest` does not start with a digit, so a numeric id survives the route segment |
| Js.ParseIntOfValue | controllers/ProductController.js:81-82 | `parseInt` of a body value: a number is kept, `undefined`/`null` give `NaN`, a string is parsed |
| Js.ContainsIgnoreCase | repositories/CategoryRepository.js:72-82 | the empty needle matches every name; a needle longer than the name never matches |
| Js.SliceMatches | repositories/CategoryRepository.js:72-82 | every slice of a name (the name itself included) matches it under the case-insensitive `contains` |
| Js.SameIgnoringCaseMatches | repositories/CategoryRepository.js:72-82 | two names equal up to letter case match each other |
| CategoryRepository.Patched | repositories/CategoryRepository.js:49-54 | the row keeps its id and deleted flag; the name and description change only when given; a missing `parentId` keeps the parent, `null` clears it, a number sets it |
| CategoryRepository.FindAll | repositories/CategoryRepository.js:10-21 | exactly the rows, or exactly the live rows, with distinct ids kept |
| CategoryRepository.FindById | repositories/CategoryRepository.js:23-47 | found iff some row has the id, deleted or not; the row found has it |
| CategoryRepository.FindChildren | repositories/CategoryRepository.js:63-70 | exactly the live rows whose parent is the given id |
| CategoryRepository.FindByName | repositories/CategoryRepository.js:72-82 | found iff a live row's name contains the needle ignoring case; the row found is such a row |
| CategoryRepository.CreateOutcome | repositories/CategoryRepository.js:4-8 | accepted iff the name is new and the parent exists; the new row gets the next id and keeps the table well formed |
| CategoryRepository.UpdateOutcome | repositories/CategoryRepository.js:49-54 | a missing id is "record not found"; for an existing row, accepted iff the patched row's parent exists and no other row holds its name; an accepted update writes exactly the patched row and keeps the table well formed |
| CategoryRepository.DeleteOutcome | repositories/CategoryRepository.js:56-61 | accepted iff the row exists; the result is that row marked deleted |
| CategoryRepository.Create | repositories/CategoryRepository.js:4-8 | the table gains exactly the created row, or is unchanged on refusal |
| CategoryRepository.Update | repositories/CategoryRepository.js:49-54 | only the updated row changes |
| CategoryRepository.Delete | repositories/CategoryRepository.js:56-61 | only the deleted row's flag changes |
| CategoryTree.SelfLoopUnranked | services/CategoryService.js:63-78 | a live category that is its own parent admits no ranking, so the tree would be cyclic |
| CategoryTree.DescMembership | services/CategoryService.js:106-117 | a row is a descendant iff it is live and its parent is the category or one of its descendants |
| CategoryTree.NotOwnDescendant | services/CategoryService.js:106-117 | a category never occurs among its own descendants |
| CategoryTree.DescListDistinct | services/CategoryService.js:106-117 | the flattened list of descendants of a set of distinct children repeats no id |
| CategoryTree.SiblingsUnrelated | services/CategoryService.js:106-117 | two children of one parent are never each other's descendants |
| CategoryTree.RankedAfterCreate | services/CategoryService.js:4-24 | adding a leaf under an existing parent keeps the tree ranked |
| CategoryTree.RankedAfterReparent | services/CategoryService.js:63-78 | moving a category under a parent that is neither itself nor one of its descendants keeps the tree ranked |
| CategoryTree.LiveAncestorsAbove | services/CategoryService.js:62-78 | under `LiveParents`, every ancestor of a live category is live and ranks strictly above it |
| CategoryTree.LiveNeverOwnAncestor | services/CategoryService.js:62-78 | under `LiveParents`, no live category is its own ancestor, however the deleted rows are linked |
| CategoryTree.LiveParentsAfterCreate | services/CategoryService.js:12-20 | appending a row whose parent is live, or that has none, keeps every live row under a live parent |
| CategoryTree.LiveParentsAfterRewrite | services/CategoryService.js:74-80 | rewriting a row with its deleted flag kept and a parent that is live, unchanged or cleared keeps every live row under a live parent |
| CategoryForest.RootIds | services/CategoryService.js:129-137 | exactly the ids of the rows with a falsy parent |
| CategoryForest.ChildIds | services/CategoryService.js:129-134 | exactly the ids of the rows whose truthy parent is the given id |
| CategoryForest.LastWithId | services/CategoryService.js:123-126 | a row is kept for an id iff some row has it; the row kept has that id |
| CategoryForest.IndexById | services/CategoryService.js:123-126 | the first pass: one node per id holding the last row with that id and no children |
| CategoryForest.LinkChildren | services/CategoryService.js:128-138 | the second pass: the roots are `RootIds`, each node's children are `ChildIds`, and the nodes' rows are untouched |
| CategoryForest.BuildCategoryTree | services/CategoryService.js:119-141 | every row has a node; the roots are exactly the rows with a falsy parent, in input order; each node's children are exactly its rows' children, in input order; a repeated id keeps its last row |
| CategoryForest.OrphanOmitted | services/CategoryService.js:129-138 | a row whose parent is not in the list appears neither among the roots nor under any node |
| CategoryService.CreateVerdict | services/CategoryService.js:4-24 | created iff no live row's name contains the new name, no row holds it exactly and the parent exists (and, in the corrected form, is live); the error carries the create prefix |
| CategoryService.GetCategoryById | services/CategoryService.js:35-45 | found iff the id parses and names a row, deleted or not |
| CategoryService.UpdateGuards | services/CategoryService.js:55-78 | all guards pass iff a changed name is not taken and a changed parent differs from the compared key, is not a live descendant, exists and, when required, is live |
| CategoryService.UpdateVerdict | services/CategoryService.js:47-84 | an unparsable id is an invalid argument and a missing one is "not found"; for a found row the answer is the first failing guard's message, or else the store's update, behind the update prefix; an accepted update writes exactly the patched row |
| CategoryService.UpdateFound | services/CategoryService.js:49-80 | once the id is parsed: "not found" for a missing row, otherwise the first failing guard's message or the store's update |
| CategoryService.UpdatedRow | repositories/CategoryRepository.js:49-54 | the row an accepted update writes keeps its id and deleted flag; its parent is the new one when the parent changes, otherwise the old one or none |
| CategoryService.GuardedUpdateKeepsRanked | services/CategoryService.js:63-78 | an update that passes the corrected guards keeps the live rows ranked |
| CategoryService.GuardedUpdateKeepsLiveParents | services/CategoryService.js:63-80 | an update that passes the corrected guards keeps every live row under a live parent |
| CategoryService.UpdateKeepsAcyclic | services/CategoryService.js:47-84 | with the corrected guards, every accepted update keeps the live rows acyclic and every live row under a live parent |
| CategoryService.CorrectedUpdateLeavesNoLiveCycle | services/CategoryService.js:62-80 | with the corrected guards, after any accepted update no live category is its own ancestor |
| CategoryService.SameNameUpdateAccepted | services/CategoryService.js:55-80 | an update that keeps the category's own name and sends no `parentId` is accepted and changes only the description |
| CategoryService.CreateKeepsLiveParents | services/CategoryService.js:12-20 | a create accepted with the live-parent check keeps every live row under a live parent |
| CategoryService.SelfParentAcceptedAsWritten | services/CategoryService.js:65 | as written, making category 1 its own parent is accepted and leaves a cycle |
| CategoryService.SelfParentRefusedWhenFixed | services/CategoryService.js:65 | with the comparison against the parsed id, the same request is refused |
| CategoryService.DeletedParentAcceptedAsWritten | services/CategoryService.js:13-17 | as written, a new category may be created under a soft-deleted one |
| CategoryService.DeletedParentRefusedWhenFixed | services/CategoryService.js:13-17 | with the live-parent check, the same request is refused as a missing parent |
| CategoryService.CycleThroughDeletedRows | services/CategoryService.js:62-80 | as written, once a live row hangs under deleted rows, a deleted ancestor can be moved under it, and the live row becomes its own ancestor |
| CategoryService.RenameToOwnSubstringRefused | services/CategoryService.js:55-60 | renaming a category to a proper part of its own name is refused as a duplicate |
| CategoryService.MarkDeleted | services/CategoryService.js:93-99 | the rows keep their order; exactly those with a given id are flagged deleted |
| CategoryService.MarkDeletedKeepsRanked | services/CategoryService.js:86-103 | soft-deleting any set of rows keeps the ranking |
| CategoryService.DeleteVerdict | services/CategoryService.js:86-103 | deleted iff the id parses and names a row; the row comes back marked deleted |
| CategoryService.CascadeLeavesNoLiveDescendant | services/CategoryService.js:86-103 | after the cascade the deleted category has no live child |
| CategoryService.CascadeKeepsLiveParents | services/CategoryService.js:93-99 | the cascade leaves no live row under a deleted one |
| CategoryService.SoftDeleteRows | services/CategoryService.js:93-97 | the table afterwards is exactly the old one with the given rows marked deleted |
| CategoryService.CategoryService.CreateCategory | services/CategoryService.js:4-24 | answers the corrected `CreateVerdict`, appends exactly the new row and keeps both tree invariants |
| CategoryService.CategoryService.GetAllCategories | services/CategoryService.js:26-33 | the forest built from the listed rows |
| CategoryService.CategoryService.GetAllSubcategories | services/CategoryService.js:106-117 | exactly the descendants, each once |
| CategoryService.CategoryService.UpdateCategory | services/CategoryService.js:47-84 | answers the corrected `UpdateVerdict`, writes only that row and keeps both tree invariants |
| CategoryService.CategoryService.UpdateParsed | services/CategoryService.js:49-80 | answers the corrected `UpdateFound`, writes only that row and keeps both tree invariants |
| CategoryService.CategoryService.RunUpdateGuards | services/CategoryService.js:54-78 | the message of the first failing corrected guard, with the descendant check done by walking the subtree |
| CategoryService.CategoryService.DeleteCategory | services/CategoryService.js:86-103 | answers `DeleteVerdict` and marks exactly the category and all its descendants deleted |
| CategoryService.CategoryService.DeleteSubtree | services/CategoryService.js:93-99 | marks exactly the category and its descendants deleted and keeps both tree invariants |
| CategoryController.IncludeDeleted | controllers/CategoryController.js:15 | deleted rows are listed only for an admin asking for them, so never on the public route |
| CategoryController.CreateReply | controllers/CategoryController.js:4-11 | 201 with the row the service as written creates, otherwise 400 with the error |
| CategoryController.GetByIdReply | controllers/CategoryController.js:23-34 | 200 iff the category exists, otherwise 500 (a missing row is thrown, never a 404) |
| CategoryController.UpdateReply | controllers/CategoryController.js:36-47 | 200 with the verdict of the service as written, otherwise 400, a missing row included |
| CategoryController.DeleteReply | controllers/CategoryController.js:49-60 | 204 iff deleted, otherwise 500 |
| ProductRepository.PatchedProduct | repositories/ProductRepository.js:42-47 | only the fields the patch carries change |
| ProductRepository.FindAll | repositories/ProductRepository.js:10-24 | exactly the rows, or exactly the live rows |
| ProductRepository.FindById | repositories/ProductRepository.js:26-40 | found iff some row has the id, deleted or not |
| ProductRepository.FindByCategory | repositories/ProductRepository.js:56-73 | exactly the live rows of the category |
| ProductRepository.CreateOutcome | repositories/ProductRepository.js:4-8 | accepted iff the category exists; the new row gets the next id |
| ProductRepository.UpdateOutcome | repositories/ProductRepository.js:42-47 | accepted iff the row and any new category exist; the result is the patched row |
| ProductRepository.Create | repositories/ProductRepository.js:4-8 | the table gains exactly the new row |
| ProductRepository.Update | repositories/ProductRepository.js:42-47 | only the updated row changes |
| ProductRepository.Delete | repositories/ProductRepository.js:49-54 | only the row's deleted flag changes; a missing row is "record not found" |
| ProductService.IsAdmin | services/ProductService.js:6-13 | on a well-formed users table, the caller is an admin iff the row with their id has the admin role |
| ProductService.CheckAdminAccess | services/ProductService.js:6-13 | passes iff the user exists with the admin role |
| ProductService.CreateProductVerdict | services/ProductService.js:15-25 | created iff the caller is an admin and the category exists |
| ProductService.GetProductById | services/ProductService.js:35-45 | found iff the id parses and names a row, deleted or not |
| ProductService.GetProductsByCategory | services/ProductService.js:73-79 | exactly the live products of the parsed category; an unparsable id is an invalid argument |
| ProductService.UpdateProductVerdict | services/ProductService.js:47-58 | updated iff admin, the row exists and any new category exists; the admin check comes first |
| ProductService.DeleteProductVerdict | services/ProductService.js:60-71 | deleted iff admin and the row exists; the row comes back marked deleted |
| ProductService.DeleteProductIdempotent | services/ProductService.js:60-71 | deleting again gives the same answer and changes nothing more |
| ProductService.NumberArgRoundTrip | services/ProductService.js:85 | passing a parsed id through `getProductById` parses back to it |
| ProductService.CartProduct | services/ProductService.js:85 | the product the cart operation looks up, deleted or not |
| ProductService.FindOrCreateCart | services/ProductService.js:91-99 | the user's cart if there is one, otherwise a new cart with the next id; refused only for an unknown user |
| ProductService.FindOrCreateCartKeepsWellFormed | services/ProductService.js:91-99 | finding or creating the cart keeps the cart tables well formed |
| ProductService.Upsert | services/ProductService.js:102-126 | the line's quantity grows by the amount added, or a new line is created with it; no other line changes |
| ProductService.UpsertKeepsWellFormed | services/ProductService.js:102-126 | the upsert keeps the cart tables well formed |
| ProductService.PutInCartSpec | services/ProductService.js:91-126 | fails iff the user is unknown, and then changes nothing |
| ProductService.AddToCartSpec | services/ProductService.js:82-130 | succeeds iff the product exists, the amount added fits the stock and the user is known; then exactly one line changes, its quantity being the old one plus the amount; on failure nothing changes |
| ProductService.AddNullQuantitySpec | services/ProductService.js:82-130 | with a `null` quantity: succeeds iff the product exists with a stock of at least 0 and the user's cart already holds it, and then changes nothing; otherwise fails, possibly after creating the user's cart |
| ProductService.NullQuantityActsAsZero | services/ProductService.js:82-130 | where a line exists, `null` behaves exactly as adding 0; where adding 0 would create a line, `null` fails |
| ProductService.RemoveFromCartSpec | services/ProductService.js:132-153 | succeeds iff the user has a cart holding the product; exactly that line is removed |
| ProductService.UpdateQuantitySpec | services/ProductService.js:178-206 | succeeds iff the cart, the product and the line exist and the new quantity fits the stock; only that line's quantity changes |
| ProductService.GetCart | services/ProductService.js:155-176 | the user's cart with exactly its lines, each joined with its product; no cart is an error |
| ProductService.AddToCartKeepsWellFormed | services/ProductService.js:82-130 | adding keeps the cart tables well formed |
| ProductService.RemoveFromCartKeepsWellFormed | services/ProductService.js:132-153 | removing keeps the cart tables well formed |
| ProductService.UpdateQuantityKeepsWellFormed | services/ProductService.js:178-206 | changing a quantity keeps the cart tables well formed |
| ProductService.AddThenRemove | services/ProductService.js:82-153 | adding a product not yet in the cart and then removing it restores the lines and returns the added line |
| ProductService.IncrementSkipsStockCheck | services/ProductService.js:85-88 | a line already holding the whole stock can still grow past it |
| ProductService.NegativeQuantityAccepted | services/ProductService.js:85-88 | a negative amount is accepted and leaves a negative quantity |
| ProductService.DeletedProductAddable | services/ProductService.js:82-88 | a soft-deleted product in stock can be added to a cart |
| ProductService.ProductService.CreateProduct | services/ProductService.js:15-25 | answers `CreateProductVerdict` and appends exactly that row |
| ProductService.ProductService.UpdateProduct | services/ProductService.js:47-58 | answers `UpdateProductVerdict` and writes only that row |
| ProductService.ProductService.DeleteProduct | services/ProductService.js:60-71 | answers `DeleteProductVerdict` and flags only that row |
| ProductService.ProductService.AddToCart | services/ProductService.js:82-130 | answers and updates the carts exactly as `AddToCartSpec` |
| ProductService.ProductService.PutInCart | services/ProductService.js:91-126 | the cart tables afterwards are those of `PutInCartSpec` |
| ProductService.ProductService.FindOrCreateUserCart | services/ProductService.js:91-99 | the cart and tables of `FindOrCreateCart` |
| ProductService.ProductService.UpsertLine | services/ProductService.js:102-126 | the line and tables of `Upsert` |
| ProductService.ProductService.RemoveFromCart | services/ProductService.js:132-153 | answers and updates exactly as `RemoveFromCartSpec` |
| ProductService.ProductService.UpdateCartItemQuantity | services/ProductService.js:178-206 | answers and updates exactly as `UpdateQuantitySpec` |
| ProductController.IncludeDeleted | controllers/ProductController.js:19 | without a user, asking for deleted rows throws; otherwise deleted rows are listed only for an admin |
| ProductController.GetAllReply | controllers/ProductController.js:17-25 | on the public route: the live products with 200, or 500 when deleted rows are asked for |
| ProductController.CreateReply | controllers/ProductController.js:4-15 | 201 with the created product, otherwise 400, a non-admin included |
| ProductController.GetByIdReply | controllers/ProductController.js:27-38 | 200 iff the product exists, otherwise 500 |
| ProductController.UpdateReply | controllers/ProductController.js:40-53 | 200 with the update, otherwise 400 |
| ProductController.DeleteReply | controllers/ProductController.js:55-68 | 204 iff deleted, otherwise 500 |
| ProductController.ByCategoryReply | controllers/ProductController.js:70-77 | 200 iff the category id parses, otherwise 500 |
| ProductController.AddQuantity | services/ProductService.js:82 | a missing quantity means 1 and a number is kept; `null` and strings take other paths |
| ProductController.AddToCartReply | controllers/ProductController.js:79-87 | 201 iff the service succeeds, otherwise 400; a missing or numeric quantity answers exactly as `AddToCartSpec` on the parsed product id; `null` answers as `AddNullQuantitySpec`; a missing product id is refused without a change |
| ProductController.RemoveFromCartReply | controllers/ProductController.js:89-96 | 204 iff removed, otherwise 400; the carts change as `RemoveFromCartSpec` |
| ProductController.GetCartReply | controllers/ProductController.js:98-105 | 200 iff the user has a cart, otherwise 400 |
| ProductController.UpdateWithoutQuantity | services/ProductService.js:178-206 | with no quantity in the body the line comes back unchanged when cart, product and line exist |
| ProductController.UpdateQuantityReply | controllers/ProductController.js:107-119 | 200 iff the service succeeds, otherwise 400; a number quantity updates as `UpdateQuantitySpec`; no quantity answers `UpdateWithoutQuantity` and changes nothing; any other quantity fails and changes nothing |
| AccountController.Public | controllers/AccountController.js:72-80 | the reply carries the user's id, name, e-mail and role and nothing else |
| AccountController.RegisterOutcome | controllers/AccountController.js:44-84 | registered iff the e-mail is free, as a plain user with the next id; the users table stays well formed |
| AccountController.UpdateProfileOutcome | controllers/AccountController.js:86-128 | refused iff name or e-mail is blank, or a changed e-mail belongs to someone else; otherwise exactly the two fields change |
| AccountController.OwnedBy | controllers/AccountController.js:203-207 | exactly the user's addresses |
| AccountController.DefaultsOf | controllers/AccountController.js:242-266 | exactly the user's default addresses |
| AccountController.AddAddressSpec | controllers/AccountController.js:168-195 | the new address is the default iff the user had none; nothing else changes |
| AccountController.ClearDefaults | controllers/AccountController.js:248-251 | the user has no default left; other users' addresses are untouched |
| AccountController.OnlyDefault | controllers/AccountController.js:242-266 | setting one address after clearing leaves exactly that one as default |
| AccountController.SetDefaultSpec | controllers/AccountController.js:242-266 | on success exactly the chosen address is the default; on failure the user has no default left |
| AccountController.PatchedDetails | controllers/AccountController.js:208-215 | only the fields given change |
| AccountController.UpdateAddressSpec | controllers/AccountController.js:197-222 | succeeds iff the id parses to one of the user's addresses; only that address's details change |
| AccountController.DeleteAddressSpec | controllers/AccountController.js:224-240 | succeeds iff the id parses to one of the user's addresses; exactly that one is removed |
| AccountController.DeletingDefaultLeavesNone | controllers/AccountController.js:224-240 | deleting the default address leaves the user without a default |
| AccountController.AddressesBelow | controllers/AccountController.js:156-166 | exactly the user's addresses with smaller ids, in id order |
| AccountController.WithDefault | controllers/AccountController.js:160 | exactly the addresses with the given flag, order kept |
| AccountController.GetAddresses | controllers/AccountController.js:156-166 | exactly the user's addresses, each once, defaults first |
| AccountController.AccountController.Register | controllers/AccountController.js:44-84 | 201 with the public user and exactly one new row, or 400 and no change |
| AccountController.AccountController.UpdateProfile | controllers/AccountController.js:86-128 | 200 and only the caller's row changes, or 400 and no change |
| AccountController.AccountController.AddAddress | controllers/AccountController.js:168-195 | 201 and the address book of `AddAddressSpec` |
| AccountController.AccountController.SetDefaultAddress | controllers/AccountController.js:242-266 | 200 or 500 and the address book of `SetDefaultSpec` |
| Database.Database.StoreAddresses | controllers/AccountController.js:254-260 | the address table becomes the given map, and the database stays valid given a well-formed table whose owners exist |
| AccountController.AccountController.ClearUserDefaults | controllers/AccountController.js:248-251 | the addresses afterwards are `ClearDefaults` of the old ones |
| AccountController.AccountController.UpdateAddress | controllers/AccountController.js:197-222 | 200 or 500 and the address book of `UpdateAddressSpec` |
| AccountController.AccountController.DeleteAddress | controllers/AccountController.js:224-240 | 204 or 500 and the address book of `DeleteAddressSpec` |

## Left out

- Login, password change, password hashing and token issuing (`AccountController.login`, `changePassword`, bcrypt, JWT) are not modelled. The authenticated caller is a parameter of each handler.
- The auth middleware (`middlewares/auth.js`) is not modelled; the handlers require what it guarantees, as `AccountController.Authenticated`. `middlewares/admin.js`, the route wiring, `AccountService`, `AccountRepository`, `prisma/seed.js` and the React client are not part of this model.
- Product prices, images and reviews, and Prisma's `include` of relations, are not modelled. The one exception is the product joined to each cart line.
- Concurrency between requests is not modelled. Each operation runs to completion on one database state.
- Database failures of the listing queries (`getAllCategories`, `getAllProducts`) are not modelled. The store's error texts ("record not found", foreign-key and unique violations, invalid argument) are stand-in constants.
- `Js.ParseInt` reads decimal digits only. Radix prefixes, hexadecimal input and fractional numbers are not modelled, and numbers in request bodies are integers.
- `Js.ContainsIgnoreCase` folds the case of ASCII letters only. Prisma's database collation may fold more characters, such as Turkish dotted and dotless i.
- ProductController.AddToCartReply: a string quantity answers 400 at once with a stand-in message and changes nothing. In the source the stock check compares with the string's numeric value, and the failure surfaces at the database write, possibly after an empty cart was created. `null` is modelled in full (`ProductService.AddNullQuantitySpec`); only its database message is a stand-in.
- ProductController.UpdateQuantityReply: a `null` or string quantity fails with a stand-in message. In the source the failure comes from the stock check or the database write. Either way the status is 400 and nothing changes.
- CategoryRepository.CreateOutcome: the new category's id is the row count plus one. The database's id sequence is not modelled, so the model does not capture an id skipped by an insert the database refused. One such refusal: a create whose exact name only a soft-deleted row holds passes the live-only `findByName` check, then fails on the unique name index. After it the source gives the next category the following id, and the model does not.
- ProductRepository.CreateOutcome: the new product's id is the row count plus one, for the same reason. A `POST /products` refused by the category foreign key uses up a sequence value in the source, and the model does not capture that skipped id.
- AccountController.AccountController.Register: `name`, `email` and `password` are taken as present strings. The source checks none of them. A missing `email` makes the `findUnique` lookup throw, a missing `password` makes the hash throw, and a missing `name` fails the `create` if the column is required (the Prisma schema is not part of this model). Each of these answers 500, and the model does not capture them. The web client always sends every field.
- AccountController.AccountController.AddAddress: every address field is taken as a present string, and the answer is always 201. In the source a missing required column fails the `create` with 500, and the model does not capture that. The web client always sends every field.
- AccountController.GetAddresses: the database orders defaults first but leaves the order among equal flags open. The model fixes it to id order, and its contract promises only membership, distinctness and defaults first.
- CategoryService.CategoryService.CreateCategory and CategoryService.CategoryService.UpdateCategory use the corrected checks: the self-parent check compares with the parsed id, and a new parent must be live (see Findings). The checks as written are `CategoryService.CreateVerdict` and `CategoryService.UpdateVerdict` with `corrected` false, and the controllers' replies use them.
- CategoryService.CategoryService: the class invariant rules out cycles through live categories only. A cycle made of soft-deleted rows alone, present in the initial table, is not excluded; no corrected write can create one, but this is not stated as a lemma.
- Request-body fields other than the modelled ones are not modelled, including the `userId` that `createCategory` receives and never uses.
- CategoryForest.BuildCategoryTree: a row whose parent is missing from the list is dropped, as the code does, rather than becoming a root.

## Findings

| source | as written | input that shows it | evidently intended | confidence | as-written member | corrected member |
|---|---|---|---|---|---|---|
| services/CategoryService.js:13-17 | the parent of a new category (and, at lines 74-77, of a moved one) only has to exist, deleted or not, while the descendant check walks live rows only | `POST /categories` `{ "name": "Bot", "parentId": 2 }` where 2 and its parent 1 are soft-deleted, then `PUT /categories/1` `{ "parentId": 3 }`: the new category 3 becomes its own ancestor (3, 2, 1, 3) | a category may not be placed under itself or its own descendants, so a deleted row should not serve as a parent | not executed | CategoryService.CycleThroughDeletedRows | CategoryService.CorrectedUpdateLeavesNoLiveCycle |
| services/CategoryService.js:65 | `data.parentId === id` compares the body's numeric `parentId` with the route's string `id`, so it is never true | `PUT /categories/1` with body `{ "parentId": 1 }` on a tree whose only category is 1 | a category may not become its own parent, so the comparison should use the parsed id | not executed | CategoryService.SelfParentAcceptedAsWritten | CategoryService.SelfParentRefusedWhenFixed |
