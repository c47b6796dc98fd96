# app-tienda-online backend core, in Dafny

This project models the rules at the heart of the online shop's Express/TypeScript backend:

- **Adding an item to a cart.** The `addItemsToCart` handler runs its guard chain. The `addItemToCart` transaction then checks the stock, decrements it, and merges into the existing (cart, product) row or inserts a new one.
- **Request validators.** The valibot schemas for cart items, products, categories, users and customers, including:
  - the email, password and phone regular expressions, each decided by a matcher proved equivalent to the pattern;
  - the name and place character classes.
- **Authorisation gates.** `checkRole` and `checkOwnership`.
- **Keyed-table rules.** The CRUD rules of the product–category relation and the categories table, including `ON DELETE SET NULL` on `products.category_id`.
- **Controller guards and record merges.** For categories, customers and users: presence checks, the `x || stored.x` fallback merge, the spread merge, role derivation and the duplicate-email check.

Conventions:
- Tables are sequences of rows; the product stock is a map. Cart quantities and stock are reals, since JavaScript numbers and the request schema admit fractions.
- A store failure is a boolean parameter. A fresh `uuid()`, the current date and bcrypt's hash and compare are parameters too.
- An HTTP answer is a `Response(status, Success(data) | Failed(message))`.
- Where the source mutates a table, a class holds the table. Its methods are tied by their `ensures` to a pure function of the old state: `(r, Snapshot()) == AddItem(old(Snapshot()), ...)`. The properties are proved about those functions.

Some behaviours of the code are counter-intuitive. The model keeps them, and lemmas state them:

- **Cart:**
  - the `existingItem` branch of the transaction changes nothing;
  - a new row takes its `cart_id` from the item data, which the handler never fills, so such a row is never merged into again;
  - merged quantities have no upper bound;
  - the cart lookup's 404 reaches callers as a 500.
- **Users:**
  - `config.ts` defines no `adminToken`, so `registerUser` makes an Admin of every body that leaves `adminToken` out;
  - `config.ts` defines no `jwtAccessToken` either, so signing the login token fails and every login answers 400 "Failed to login";
  - the name class of `userSchema` holds Hangul syllables in place of the accented letters, so accented names are refused (see Findings);
  - `updateUserProfile` merges `req.body.user`, which is the decoded token, not the profile changes;
  - `updateUser` re-hashes whatever password the merged record holds, so an update without a new password stores a hash of the stored hash;
  - `last_login: date()` cannot be met by a JSON body, so `userSchema` refuses every request.
- **Ownership:** the routes that use `checkOwnership` have no `userId` parameter, so there it admits only Admins and tokens without a user id.
- **Categories:** the table has no timestamp columns, so the dates the controller builds are dropped. `putCategory` needs both fields although it is routed as PATCH.

## Model

| member | source | states |
|---|---|---|
| Common.ErrorResponse | backend/src/controllers/categoryController.ts:22-31 | An AppError answers with its own status and message; any other error answers 500 with the handler's message. |
| Common.Respond | backend/src/controllers/shoppingCartItemController.ts:44-56 | A success answers the handler's status with exactly the value returned; a failure answers as ErrorResponse. |
| ShoppingCartService.LookupCart | backend/src/services/shoppingCartService.ts:10-14 | A cart found belongs to the user; with a working read, a missing cart is a 404 "Shopping cart not found". |
| ShoppingCartService.GetShoppingCartByUserId | backend/src/services/shoppingCartService.ts:8-28 | Succeeds iff the read works and the user has a cart, returning one of the user's carts; every failure is 500 "Failed to get shopping cart". |
| ShoppingCartService.MissingCartIsReportedAs500 | backend/src/services/shoppingCartService.ts:12-27 | For a user without a cart the inner lookup throws 404 and the caller sees 500. |
| ShoppingCartItemService.Rethrow | backend/src/services/shoppingCartItemService.ts:71-76 | An AppError from the transaction propagates unchanged; anything else becomes 500 "Failed to add item to cart". |
| ShoppingCartItemService.Transaction | backend/src/services/shoppingCartItemService.ts:16-70 | The transaction body: any throw leaves the tables it was given. A failed product read is a plain error, an unknown product is 404, and every AppError it throws is 400 or 404. |
| ShoppingCartItemService.AddItem | backend/src/services/shoppingCartItemService.ts:11-77 | A failure leaves both tables unchanged. The checks run in order: a failed product read is 500 "Failed to add item to cart", an unknown product 404, a failed cart-item read 500, too little stock 400. It succeeds iff no read or write fails, the product exists, the stock covers the quantity and the insert's id is free. On success the stock drops by exactly the quantity, fractions included, so non-negative stock stays non-negative. |
| ShoppingCartItemService.MergeBranch | backend/src/services/shoppingCartItemService.ts:25-58 | When a (cart, product) row exists, only that row changes; its quantity becomes old + requested, no row is added, and the updated row is returned. |
| ShoppingCartItemService.InsertBranch | backend/src/services/shoppingCartItemService.ts:59-68 | Otherwise exactly one row is appended, with the fresh id and the item's own fields, including the item's cart_id rather than the cartId argument. |
| ShoppingCartItemService.AddItemKeepsKeysUnique | backend/src/services/shoppingCartItemService.ts:52-68 | The cart-item primary key stays unique after every call. |
| ShoppingCartItemService.MergeIsUncapped | backend/src/services/shoppingCartItemService.ts:54 | A row at 100 merged with 1 more becomes 101: the merge has no upper bound. |
| ShoppingCartItemService.NullCartRowsAreNeverMerged | backend/src/services/shoppingCartItemService.ts:25-66 | A row inserted with no cart_id is not found by the next add for the same cart and product, which inserts a second row. |
| ShoppingCartItemService.RepeatedAddsMerge | backend/src/services/shoppingCartItemService.ts:25-58 | Two successful adds of one product to one cart, the second merging, leave one row whose quantity grew by both quantities and stock lowered by both. |
| ShoppingCartItemService.OversizedAddChangesNothing | backend/src/services/shoppingCartItemService.ts:16-41 | A request above the remaining stock is a 400 and leaves both tables as they were. |
| ShoppingCartItemService.FractionalAddLeavesFractionalStock | backend/src/services/shoppingCartItemService.ts:39-48 | Nothing rounds: adding 1.5 of a product with 2 in stock succeeds and leaves 0.5. |
| ShoppingCartItemService.CartStore.AddItemToCart | backend/src/services/shoppingCartItemService.ts:11-77 | The in-place transaction: result and new tables are AddItem of the old tables; the key invariant is kept. |
| ShoppingCartItemController.CartGuard | backend/src/controllers/shoppingCartItemController.ts:14-36 | The checks run in order: a failed product read is a plain error, then unknown product 404, stock below the quantity 400, quantity above 100 400, then the cart lookup. It passes iff all hold and the user has a cart, yielding that cart's id. |
| ShoppingCartItemController.NewItem | backend/src/controllers/shoppingCartItemController.ts:38-42 | The item passed on has the request's product and quantity, created_at = updated_at = the date, and no cart_id. |
| ShoppingCartItemController.AddItemsToCart | backend/src/controllers/shoppingCartItemController.ts:10-58 | A refused guard answers its error and changes nothing. Otherwise the tables become AddItem's result for the user's cart, and the answer is 201 with the returned row or the service's error. A 201 means the stock dropped by the quantity. |
| ShoppingCartItemController.StockCheckPrecedesCap | backend/src/controllers/shoppingCartItemController.ts:24-30 | With too little stock a quantity above 100 gets the stock error, not the cap error. |
| ShoppingCartItemController.UnknownProductPrecedesCart | backend/src/controllers/shoppingCartItemController.ts:18-32 | An unknown product is a 404 whatever the cart lookup would do. |
| ShoppingCartItemController.ProductReadFailureIs500 | backend/src/controllers/shoppingCartItemController.ts:18-56 | A failed product read answers 500 "Internal server error" before any other check, even for a product that does not exist. |
| ShoppingCartItemController.CartNotFound404IsUnreachable | backend/src/controllers/shoppingCartItemController.ts:32-36 | The handler's own "Shopping cart not found" 404 never occurs. |
| ShoppingCartItemsSchema.QuantityBounds | backend/src/schemas/shoppingCartItemsSchema.ts:17-21 | A quantity is accepted iff it is a number with 1 ≤ n ≤ 100, both ends included. |
| ShoppingCartItemsSchema.FractionalQuantityAccepted | backend/src/schemas/shoppingCartItemsSchema.ts:17-21 | 1.5 is accepted: there is no integer check. |
| ShoppingCartItemsSchema.UpdateSchemaRelaxesCreate | backend/src/schemas/shoppingCartItemsSchema.ts:24-32 | The update schema accepts every create body and a body without quantity; a present quantity obeys the create bounds. |
| ShoppingCartItemsSchema.ItemSchemasCharacterised | backend/src/schemas/shoppingCartItemsSchema.ts:5-22 | The create schema needs a product_id string that isUUID accepts and a valid quantity; the id schema needs a cart_item_id string that isUUID accepts. |
| ShoppingCartItemsSchema.ShoppingCartItemIdSchema | backend/src/schemas/shoppingCartItemsSchema.ts:5-10 | The id schema; ItemSchemasCharacterised states what it accepts. |
| ShoppingCartItemsSchema.ShoppingCartItemsSchema | backend/src/schemas/shoppingCartItemsSchema.ts:12-22 | The create schema; ItemSchemasCharacterised and QuantityBounds state what it accepts. |
| ShoppingCartItemsSchema.ShoppingCartItemsUpdateSchema | backend/src/schemas/shoppingCartItemsSchema.ts:24-32 | The update schema; UpdateSchemaRelaxesCreate relates it to create. |
| ProductSchema.FieldBounds | backend/src/schemas/productSchema.ts:14-21 | Name ≥ 3 characters, description ≥ 10, price ≥ 0, stock from 0 to 10000, each iff. |
| ProductSchema.UpdateSchemaRelaxesCreate | backend/src/schemas/productSchema.ts:22-49 | Create needs the two boolean flags and tolerates a missing picture; update accepts every create body and the empty body. |
| ProductSchema.ProductSchema | backend/src/schemas/productSchema.ts:13-25 | The create schema; FieldBounds and UpdateSchemaRelaxesCreate state what it accepts. |
| ProductSchema.ProductUpdateSchema | backend/src/schemas/productSchema.ts:37-49 | The update schema; UpdateSchemaRelaxesCreate relates it to create. |
| CategorySchema.SchemasCharacterised | backend/src/schemas/categorySchema.ts:4-13 | Create accepts iff both fields are strings of at least 3 and 10 characters; update accepts every create body, the empty body, and a present field only under the create bound. |
| CategorySchema.CategorySchema | backend/src/schemas/categorySchema.ts:4-7 | The create schema; SchemasCharacterised states what it accepts. |
| CategorySchema.CategoryUpdateSchema | backend/src/schemas/categorySchema.ts:10-13 | The update schema; SchemasCharacterised states what it accepts. |
| Valibot.NonEmptyImpliedByMinLength | backend/src/schemas/customerSchema.ts:17-25 | `nonEmpty()` adds nothing after a `minLength(n)` with n ≥ 1. |
| UserSchema.AccentedNameRejectedAsWritten | backend/src/schemas/userSchema.ts:17-22 | The character class as written refuses "José" and accepts a run of Hangul syllables. |
| UserSchema.AccentedNameAccepted | backend/src/schemas/userSchema.ts:14-23 | The restored class accepts "José", refuses the Hangul run, and agrees with the class as written on text with neither kind of extra letter. |
| UserSchema.IndexOf | backend/src/schemas/userSchema.ts:27 | The index returned holds the character and none before it does; none iff the character is absent. |
| UserSchema.LastIndexOf | backend/src/schemas/userSchema.ts:27 | The index returned holds the character and none after it does; none iff the character is absent. |
| UserSchema.ParseEmail | backend/src/schemas/userSchema.ts:27 | A match returns well-formed local, domain and tld parts that render back to the input. |
| UserSchema.FirstAtClosesLocal | backend/src/schemas/userSchema.ts:27 | In a string of the pattern the first "@" ends the local part. |
| UserSchema.LastDotOpensTld | backend/src/schemas/userSchema.ts:27 | After the "@", the last "." starts the letters-only top-level domain. |
| UserSchema.ParseEmailAt | backend/src/schemas/userSchema.ts:27 | The matcher at given "@" and "." positions returns those groups. |
| UserSchema.ParseEmailComplete | backend/src/schemas/userSchema.ts:27 | Every string of the pattern is matched, with its own groups. |
| UserSchema.ParseEmailDecidesPattern | backend/src/schemas/userSchema.ts:24-28 | The matcher succeeds iff the string is local@domain.tld with the classes and the ≥ 2-letter tld of the regex. |
| UserSchema.PasswordRuleCharacterised | backend/src/schemas/userSchema.ts:29-33 | A password is accepted iff it has ≥ 8 characters, all from [A-Za-z0-9@$!%*?&], with a lowercase letter, an uppercase letter, a digit and a special character; minLength(8) is implied. |
| UserSchema.RoleRuleCharacterised | backend/src/schemas/userSchema.ts:34-37 | role_user is accepted iff it is exactly "Customer" or "Admin". |
| UserSchema.LastLoginBlocksJsonBodies | backend/src/schemas/userSchema.ts:39-90 | The create schema refuses every JSON body, since last_login must be a Date; the update schema accepts a body only without last_login, and accepts the empty body. |
| UserSchema.UserSchema | backend/src/schemas/userSchema.ts:13-40 | The create schema as written, with the name class as the file has it; LastLoginBlocksJsonBodies shows it refuses every JSON body. |
| UserSchema.UserUpdateSchema | backend/src/schemas/userSchema.ts:53-90 | The update schema as written, with the name class as the file has it; AccentedNameInUpdateSchema and LastLoginBlocksJsonBodies state what it accepts. |
| UserSchema.CorrectedUserSchema | backend/src/schemas/userSchema.ts:13-40 | The create schema with the accented letters restored. |
| UserSchema.CorrectedUserUpdateSchema | backend/src/schemas/userSchema.ts:53-90 | The update schema with the accented letters restored. |
| UserSchema.AccentedNameInUpdateSchema | backend/src/schemas/userSchema.ts:53-67 | As written, the update schema refuses the name "José" and accepts a Hangul lastname; the corrected one does the reverse. |
| CustomerSchema.TakeOptional | backend/src/schemas/customerSchema.ts:13 | A greedy `c?` splits the string into an optional match and the rest. |
| CustomerSchema.TakeOptionalSplits | backend/src/schemas/customerSchema.ts:13 | Greedy matching of x + y takes exactly x when x is a match and y cannot extend it. |
| CustomerSchema.ParsePhone | backend/src/schemas/customerSchema.ts:13 | A match returns well-formed groups that render back to the input. |
| CustomerSchema.ParsePhoneAt | backend/src/schemas/customerSchema.ts:13 | The matcher returns the groups given by its intermediate splits. |
| CustomerSchema.SplitsBeforeArea | backend/src/schemas/customerSchema.ts:13 | On a string of the pattern, "+" and "(" take exactly their groups. |
| CustomerSchema.SplitsBeforeExchange | backend/src/schemas/customerSchema.ts:13 | The area code, then ")" and the separator, take exactly their groups. |
| CustomerSchema.SplitsAfterExchange | backend/src/schemas/customerSchema.ts:13 | The exchange, the second separator and the line number take exactly their groups. |
| CustomerSchema.ParsePhoneComplete | backend/src/schemas/customerSchema.ts:13 | Every string of the pattern is matched, with its own groups. |
| CustomerSchema.ParsePhoneDecidesPattern | backend/src/schemas/customerSchema.ts:9-14 | The matcher succeeds iff the string has an optional "+", optional "(", 3 digits, optional ")", optional separator, 3 digits, optional separator, then 4 to 6 digits. |
| CustomerSchema.DigitCount | backend/src/schemas/customerSchema.ts:13 | A string holds at most as many digits as characters. |
| CustomerSchema.DigitCountAppend | backend/src/schemas/customerSchema.ts:13 | Digits of a concatenation add up. |
| CustomerSchema.DigitCountAll | backend/src/schemas/customerSchema.ts:13 | A string of digits has as many digits as characters. |
| CustomerSchema.DigitCountOptional | backend/src/schemas/customerSchema.ts:13 | An optional punctuation group holds no digit. |
| CustomerSchema.PhoneDigitsAndLength | backend/src/schemas/customerSchema.ts:13 | A phone of the pattern has 10 to 12 digits and 10 to 17 characters. |
| CustomerSchema.PhoneRuleDigits | backend/src/schemas/customerSchema.ts:9-14 | Every accepted phone holds 10 to 12 digits. |
| CustomerSchema.LongestPhonesRefused | backend/src/schemas/customerSchema.ts:12-13 | "+(123) 456-123456" is of the pattern but refused by maxLength(15). |
| CustomerSchema.AddressAndPlaceBounds | backend/src/schemas/customerSchema.ts:15-42 | An address is accepted iff it has 5 to 100 characters from [a-zA-Z0-9\s.,#-]; a city, country or neighborhood iff it has 2 to 50 characters from [a-zA-ZÀ-ÿ\s]. |
| CustomerSchema.PlaceRangeAdmitsSigns | backend/src/schemas/customerSchema.ts:27-41 | The À-ÿ range admits "×÷" and an all-space name, accepts "Bogotá" and refuses a digit. |
| CustomerSchema.SchemasRelated | backend/src/schemas/customerSchema.ts:4-83 | The update schema accepts every create body and the empty body, which create refuses. |
| CustomerSchema.PhoneRule | backend/src/schemas/customerSchema.ts:9-14 | The phone pipe; ParsePhoneDecidesPattern, PhoneRuleDigits and LongestPhonesRefused state what it accepts. |
| CustomerSchema.CustomerSchema | backend/src/schemas/customerSchema.ts:4-43 | The create schema; AddressAndPlaceBounds and SchemasRelated state what it accepts. |
| CustomerSchema.CustomerUpdateSchema | backend/src/schemas/customerSchema.ts:45-84 | The update schema; SchemasRelated relates it to create. |
| CheckRole.CheckRole | backend/src/middlewares/checkRole.ts:9-22 | next is called iff a user is present and their role is in the list; no user gives 401 "Not authorized."; a role outside the list gives 403. |
| CheckRole.UnauthenticatedBeforeRoles | backend/src/middlewares/checkRole.ts:11-19 | The 401 comes first, the same for every list. |
| CheckRole.EmptyRolesDenyAll | backend/src/middlewares/checkRole.ts:16 | An empty list denies every authenticated user with 403. |
| CheckRole.RolesMonotone | backend/src/middlewares/checkRole.ts:16 | A larger list never denies a user a smaller one admits. |
| CheckRole.OnlyMembershipMatters | backend/src/middlewares/checkRole.ts:16 | Lists with the same members decide alike. |
| CheckOwnership.ActiveUserId | backend/src/middlewares/checkOwnership.ts:6 | The active id is defined only when a token user with a user id is present, and is that id. |
| CheckOwnership.CheckOwnership | backend/src/middlewares/checkOwnership.ts:3-26 | Exactly one of next, 403 or 500. 500 iff no body. next iff a body with an Admin user, or the route id equal to the token's id, two undefined ids included. 403 otherwise. |
| CheckOwnership.AdminAlwaysPasses | backend/src/middlewares/checkOwnership.ts:11-14 | An Admin passes whatever the ids. |
| CheckOwnership.NonAdminOnlyOwnId | backend/src/middlewares/checkOwnership.ts:16-21 | A caller other than an Admin passes iff the route's id equals the token's, and gets 403 otherwise. |
| CheckOwnership.RouteWithoutUserIdAdminsOnly | backend/src/middlewares/checkOwnership.ts:5-21 | Without a userId parameter only Admins and tokens without a user id pass; a Customer token with an id gets 403. |
| CheckOwnership.NoTokenNoParamPasses | backend/src/middlewares/checkOwnership.ts:5-21 | With no token user, a request without a userId parameter passes and one with a parameter gets 403. |
| ProductCategoriesService.GetProductsByCategory | backend/src/services/productCategoriesService.ts:6-13 | A row is listed iff it is in the relation with that category_id; a failed read is a 500. |
| ProductCategoriesService.GetCategoriesByProduct | backend/src/services/productCategoriesService.ts:15-22 | A row is listed iff it is in the relation with that product_id; a failed read is a 500. |
| ProductCategoriesService.AssignOutcome | backend/src/services/productCategoriesService.ts:24-30 | A failed insert is a 400 and changes nothing; a successful one appends exactly the pair, with no existence check on the ids. |
| ProductCategoriesService.AfterAssign | backend/src/services/productCategoriesService.ts:24-30 | Fails iff the write fails, with 400 and the relation unchanged; otherwise the relation gains one row, the pair, and keeps every old row. |
| ProductCategoriesService.AfterUnassign | backend/src/services/productCategoriesService.ts:32-38 | Fails iff the write fails, with 400 and the relation unchanged; otherwise the rows left are exactly the old rows other than the pair. |
| ProductCategoriesService.AssignedRowIsListed | backend/src/services/productCategoriesService.ts:8-26 | After an assign both getters list the new pair. |
| ProductCategoriesService.UnassignRemovesExactlyThePair | backend/src/services/productCategoriesService.ts:32-38 | Unassign removes every copy of the pair and keeps every other row. |
| ProductCategoriesService.UnassignAbsentIsNoop | backend/src/services/productCategoriesService.ts:32-38 | Unassigning an absent pair succeeds and changes nothing. |
| ProductCategoriesService.UnassignUndoesAssign | backend/src/services/productCategoriesService.ts:24-38 | Assign then unassign leaves the relation as unassign alone would. |
| ProductCategoriesService.ProductCategoryTable.AssignCategoryToProduct | backend/src/services/productCategoriesService.ts:24-30 | The in-place insert: result and relation are those of AfterAssign on the old relation. |
| ProductCategoriesService.ProductCategoryTable.UnassignCategoryFromProduct | backend/src/services/productCategoriesService.ts:32-38 | The in-place delete: result and relation are those of AfterUnassign on the old relation. |
| CategoryService.GetAllCategories | backend/src/services/categoryService.ts:16-26 | Every row, or a 404 iff the read fails. |
| CategoryService.GetCategoryById | backend/src/services/categoryService.ts:36-46 | The row with the id, none iff no row has it; a 404 naming the id iff the read fails. |
| CategoryService.InsertCategory | backend/src/services/categoryService.ts:56-68 | Fails iff the write fails or the id is taken, with 400 and no change; otherwise the tables gain exactly the returned row. |
| CategoryService.UpdateCategory | backend/src/services/categoryService.ts:79-86 | Fails iff the write fails, with 400 and no change; otherwise no row is added or removed, products are untouched, and a returned row is in the table with the id. |
| CategoryService.RemoveCategory | backend/src/services/categoryService.ts:96-102 | Fails iff the store reports an error, with 400 carrying that message and no change; otherwise no row is added and every product stays. |
| CategoryService.SetNull | backend/src/database/db/productsScheme.ts:11-14 | Every product stays. A product has no category afterwards iff it had none or had this one; every other product keeps its own. |
| CategoryService.InsertThenGet | backend/src/services/categoryService.ts:56-68 | A successful post appends one row of the new id and the two fields, which the lookup then finds; a failed one is a 400 and changes nothing; the key stays unique. |
| CategoryService.UpdateFrame | backend/src/services/categoryService.ts:79-86 | An update keeps order and ids; only rows with the id change, to the new name and description. |
| CategoryService.UpdateReturnsPatchedRow | backend/src/services/categoryService.ts:81-82 | The returned row is the stored row with the new fields, none iff the id is absent. |
| CategoryService.RemoveSetsNull | backend/src/services/categoryService.ts:96-102 | After a delete the rows left are exactly those with another id, so the id no longer resolves, and the key stays unique. Every product stays; those that pointed at the category now have none; the rest keep theirs. |
| CategoryService.CategoryStore.PostCategory | backend/src/services/categoryService.ts:56-68 | In place: result and tables are those of InsertCategory on the old tables; the key invariant is kept. |
| CategoryService.CategoryStore.PutCategory | backend/src/services/categoryService.ts:79-86 | In place: result and tables are those of UpdateCategory on the old tables; the key invariant is kept. |
| CategoryService.CategoryStore.DeleteCategory | backend/src/services/categoryService.ts:96-102 | In place: result and tables are those of RemoveCategory on the old tables; the key invariant is kept. |
| CategoryController.GetAllCategoriesResponse | backend/src/controllers/categoryController.ts:14-33 | 200 with every row, or the service's 404 when the read fails. |
| CategoryController.Existing | backend/src/controllers/categoryController.ts:48-58 | An empty id is a 400 before any lookup. A failed read is the service's 404 and an unknown id a 404 "Category not found!". Success iff a stored row has the id, and that row is returned. |
| CategoryController.GetCategoryByIdResponse | backend/src/controllers/categoryController.ts:43-74 | 200 iff the id resolves, with the stored row; otherwise a 400 or 404 failure. |
| CategoryController.NewCategory | backend/src/controllers/categoryController.ts:99-104 | The record holds the two fields and created_at = updated_at = the date. |
| CategoryController.PostCategoryOutcome | backend/src/controllers/categoryController.ts:84-122 | Answers 201 or 400; every 400 is a failure that leaves the tables unchanged. PostNeedsBothFields states when each occurs. |
| CategoryController.PutCategoryOutcome | backend/src/controllers/categoryController.ts:132-183 | Answers 201, 400 or 404; every non-201 leaves the tables unchanged; a 201 needs both fields and a resolving id. |
| CategoryController.DeleteCategoryOutcome | backend/src/controllers/categoryController.ts:192-223 | Answers 201, 400 or 404; every non-201 leaves the tables unchanged. DeleteOnlyAfterCheck states when each occurs. |
| CategoryController.PostNeedsBothFields | backend/src/controllers/categoryController.ts:94-108 | Without both fields truthy, a 400 and no insert. A 201 iff the fields are present, the write works and the id is free, and the new id then resolves. |
| CategoryController.PostIgnoresDate | backend/src/controllers/categoryController.ts:99-104 | The outcome of a post does not depend on the date: no column stores it. |
| CategoryController.PutGuardsAndFrame | backend/src/controllers/categoryController.ts:142-169 | An unresolved id is a 400 or 404 with no write, and a missing field a 400 with no write. A 201 returns the stored row renamed, and every row with another id is kept. |
| CategoryController.PartialUpdateRefused | backend/src/controllers/categoryController.ts:154-159 | A body with only a name is refused even for a stored category. |
| CategoryController.DeleteOnlyAfterCheck | backend/src/controllers/categoryController.ts:197-211 | An unresolved id is refused with no write. A 201 iff the id resolves and the delete works; then the id is gone and no product points at it. |
| CategoryController.PostCategory | backend/src/controllers/categoryController.ts:84-122 | On the store, response and tables are those of PostCategoryOutcome. |
| CategoryController.PutCategory | backend/src/controllers/categoryController.ts:132-183 | On the store, response and tables are those of PutCategoryOutcome. |
| CategoryController.DeleteCategory | backend/src/controllers/categoryController.ts:192-223 | On the store, response and tables are those of DeleteCategoryOutcome. |
| CustomerController.StepResponse | backend/src/controllers/customerController.ts:53-110 | A refusal answers as ErrorResponse; a write answers as its result with the handler's status. |
| CustomerController.GetAllCustomersResponse | backend/src/controllers/customerController.ts:12-27 | 200 with every row, or 500 when the read fails, since the service returns the query unawaited. |
| CustomerController.Existing | backend/src/controllers/customerController.ts:41-51 | An empty id is a 400, a failed lookup its own error and an unknown id a 404; success iff a row was found, which is returned. |
| CustomerController.GetCustomerByIdResponse | backend/src/controllers/customerController.ts:36-65 | Success iff id and row are present, 200 with the row; otherwise 400 for no id, 404 for no row. |
| CustomerController.PostCustomerStep | backend/src/controllers/customerController.ts:80-96 | A write iff all seven fields are truthy, inserting exactly them with created_at = the date; otherwise 400. |
| CustomerController.Fallback | backend/src/controllers/customerController.ts:137-146 | `given || stored`: the body value when truthy, else the stored one. |
| CustomerController.Merged | backend/src/controllers/customerController.ts:137-147 | The record putCustomer writes, field by field the fallback of body over row; EmptyStringCannotClear, MergeIdempotent and FullBodyOverridesRow state its properties. |
| CustomerController.Updated | backend/src/controllers/customerController.ts:137-148 | The row as the update leaves it, under its own id; EmptyBodyRewritesStoredRow and MergeIdempotent use it. |
| CustomerController.PutCustomerStep | backend/src/controllers/customerController.ts:120-152 | An update iff the row was found, writing the fallback merge of body and row; otherwise the guard's error. |
| CustomerController.DeleteCustomerStep | backend/src/controllers/customerController.ts:167-183 | A delete iff the row was found; otherwise the guard's error. |
| CustomerController.DeleteCustomerResponse | backend/src/controllers/customerController.ts:183-185 | Success iff the guards passed and the delete worked, answering 200 "Customer deleted successfully!". |
| CustomerController.EmptyStringCannotClear | backend/src/controllers/customerController.ts:137-147 | No merged field is empty if none was stored empty; an all-empty body merges like an absent one; created_at is the stored one. |
| CustomerController.EmptyBodyRewritesStoredRow | backend/src/controllers/customerController.ts:137-148 | An empty body rewrites the row with its own values. |
| CustomerController.MergeIdempotent | backend/src/controllers/customerController.ts:137-148 | Merging the same body again into the updated row gives the same record. |
| CustomerController.FullBodyOverridesRow | backend/src/controllers/customerController.ts:137-147 | A body with all fields truthy replaces every field but created_at. |
| CustomerController.NoWriteWithoutRow | backend/src/controllers/customerController.ts:125-181 | With no id or no row, neither update nor delete is issued, and the answer is 400 or 404. |
| CustomerController.ReadFailureIs500 | backend/src/controllers/customerController.ts:17-26 | A failed read answers 500, never the service's 400. |
| UserService.Stored | backend/src/database/db/usersScheme.ts:4-15 | A record is cut down to the table's columns, values unchanged. |
| UserService.GetUserByEmail | backend/src/services/userService.ts:18-25 | The row found has the email; none iff no row has it, or the email is null; a 400 iff the read fails. |
| UserService.GetUserById | backend/src/services/userService.ts:104-112 | The row found has the id; none iff no row has it; a 400 iff the read fails. |
| UserService.TokenUser | backend/src/services/userService.ts:69-74 | The token's user holds exactly email, user_id and role_user. |
| UserService.LoginUser | backend/src/services/userService.ts:59-80 | Success iff the password is a string that compare matches against the stored hash and the token is signed, giving the token's user; otherwise 400 "Failed to login". |
| UserService.InsertedRow | backend/src/services/userService.ts:36-44 | The inserted row has the fresh id, the hashed password, the record's other columns and the defaults for missing ones, and no other keys. |
| UserService.InsertUser | backend/src/services/userService.ts:34-49 | A failure is 400 "Failed to register a new user" and changes nothing; a success appends exactly the returned row and leaves the table's constraints holding. |
| UserService.UpdateRows | backend/src/services/userService.ts:122-136 | A failure is 400 "Failed to update user" and changes nothing; a success keeps the number of rows and the constraints, and a returned row is in the table. |
| UserService.InsertThenFindByEmail | backend/src/services/userService.ts:34-49 | A success appends one row, which email and id lookups then find, and the constraints hold. A failure is a 400 and changes nothing. |
| UserService.UpdateFrame | backend/src/services/userService.ts:122-136 | A success keeps order, constraints and every other row; rows with the id get the record's columns over their values, the password hashed. A failure is a 400 and changes nothing. |
| UserService.UserStore.RegisterUser | backend/src/services/userService.ts:34-49 | In place: result and table are those of InsertUser on the old table; the constraints are kept. |
| UserService.UserStore.UpdateUser | backend/src/services/userService.ts:122-136 | In place: result and table are those of UpdateRows on the old table; the constraints are kept. |
| UserController.DeriveRole | backend/src/controllers/userController.ts:20 | "Admin" iff the body's adminToken strictly equals the configured token, an absent token equalling an unset one; "Customer" otherwise. |
| UserController.OmittedTokenGrantsAdmin | backend/src/controllers/userController.ts:20 | With config.ts defining no adminToken, a body registers as Admin iff it has no adminToken. |
| UserController.NewUser | backend/src/controllers/userController.ts:30-35 | The record is the body with role_user set to the derived role and created_at = updated_at = the date, every other key kept. |
| UserController.RegisterUserOutcome | backend/src/controllers/userController.ts:16-51 | Answers 201 or 400; a 400 changes nothing; a 201 appends exactly the returned row and the constraints hold. RegisteredUser states the row. |
| UserController.DuplicateEmailRefused | backend/src/controllers/userController.ts:22-26 | A stored email answers 400 "User already exists" and inserts nothing. |
| UserController.RegisteredUser | backend/src/controllers/userController.ts:16-51 | A non-201 changes nothing. A 201 appends the returned row, which has the derived role whatever the body said, created_at = updated_at = the date, the fresh id, the hashed password and the body's other columns. The email then finds it and the constraints hold. |
| UserController.RegisteredRow | backend/src/controllers/userController.ts:30-37 | The success case of RegisteredUser: the inserted row's columns. |
| UserController.NewUserRow | backend/src/controllers/userController.ts:30-35 | The row inserted for a body, column by column. |
| UserController.BodyRoleIgnored | backend/src/controllers/userController.ts:30-35 | The outcome of a registration is the same for any role_user in the body, or none. |
| UserController.LoginOutcome | backend/src/controllers/userController.ts:60-109 | 200 iff the read works, the email is stored, the password matches and the token is signed, with the token's user and "Login successful"; otherwise a 400. |
| UserController.UnknownEmailBeforePassword | backend/src/controllers/userController.ts:64-68 | An unknown email answers 400 "User not found or not exists" whatever compare does. |
| UserController.NoLoginSucceedsAsConfigured | backend/src/config.ts:8-12 | With the signing secret config.ts leaves undefined, every login answers 400, and a stored user with any password gets "Failed to login". |
| UserController.GetUserByIdResponse | backend/src/controllers/userController.ts:131-153 | Success iff a row has the id, 200 with it; an unknown id is 400 "An error occurred while getting the user profile" and a failed read the service's 400. |
| UserController.MergeOverrides | backend/src/controllers/userController.ts:170-174 | The merged record has every key of either side; supplied fields override, unsupplied ones keep the stored value, and updated_at is the date. |
| UserController.MergedProfile | backend/src/controllers/userController.ts:170-174 | The record updateUserProfile builds; MergeOverrides states its keys and values. |
| UserController.UpdateUserProfileOutcome | backend/src/controllers/userController.ts:156-190 | Answers 200 or 400; a 400 changes nothing; a 200 keeps the number of rows and the constraints. UpdatedProfile states the row. |
| UserController.UpdateNeedsProfile | backend/src/controllers/userController.ts:164-168 | Without a stored profile, a 400 and no write. |
| UserController.UpdatedProfile | backend/src/controllers/userController.ts:156-190 | Keeps the constraints. A non-200 is a failure and changes nothing. A 200 means the read worked and the user exists, and it answers an UpdatedRow of the stored profile: each supplied column, each unsupplied stored column, the date as updated_at, and the hash of the supplied password or, when none is supplied, of the stored hash. |
| UserController.UpdateFrameAt | backend/src/controllers/userController.ts:164-178 | The 200 row is the stored profile with the update's columns over it. |
| UserController.ProfileRow | backend/src/controllers/userController.ts:170-176 | The stored profile with the update's set columns over it has the hash of the merged password and is an UpdatedRow of the profile and the patch. |
| UserController.UpdateNeedsProfileOrFails | backend/src/controllers/userController.ts:164-168 | A failed or empty lookup answers 400 and writes nothing. |
| UserController.RegisterUser | backend/src/controllers/userController.ts:16-51 | On the store, response and table are those of RegisterUserOutcome. |
| UserController.UpdateUserProfile | backend/src/controllers/userController.ts:156-190 | On the store, response and table are those of UpdateUserProfileOutcome. |

## Left out

- Express plumbing is not modelled: routers, cookies, response writing, `console.log`, and `logoutUser`, which only clears a cookie. Each answer is a `Response` value.
- JWT signing and verification (`jwtUtils.ts`, `auth.ts`) and bcrypt are foreign crypto calls, so they are left out. Hash and compare are parameters; the token string is not modelled.
- `auth.ts` stores the decoded token in `req.body.user`, while `checkRole` reads `req.user`. That wiring is left out: `checkRole` takes the user as an optional parameter.
- The database client, transaction isolation and concurrent requests are not modelled. Each transaction is one atomic step; overselling races between requests are not captured.
- `isUUID` and valibot's `email()` are not modelled. They are function parameters of the schemas.
- Strings are sequences of code points. JavaScript measures length in UTF-16 units, so a character outside the Basic Multilingual Plane would count differently.
- Dates are not modelled: `getCurrentDate` and the −3 hour shift in the category and customer handlers are opaque parameters.
- Numbers are exact reals: floating-point rounding of prices, stock and quantities is not modelled.
- Product stubs, `productCategoriesController.ts`, `shoppingCartController.ts` and `validateProduct.ts` are wrappers with no rules of their own. Of `config.ts` the model uses only what it leaves undefined: `adminToken`, which registration compares against, and `jwtAccessToken`, without which jsonwebtoken refuses to sign. LoginOutcome takes signing failure as a parameter, and NoLoginSucceedsAsConfigured instantiates it with the configuration as given.
- The file declaring the product–category table is not part of this model, so no key on the pair is assumed: assigning a pair twice stores it twice.
- CustomerController: `customerService.ts` implements only `getAllCustomers`, and the customer routes are disabled. So the other handlers are modelled as decisions over what their lookup returns, ending in a refusal or in the write they would issue; no customer table is modelled.
- UserService.GetUserByEmail: an absent email is looked up as SQL NULL, which matches no row. The driver's handling of an `undefined` parameter is not part of this model.
- UserService.InsertUser and UserService.UpdateRows: beyond the notNull, primary-key and unique constraints, column types are not checked. The `now` argument stands for the database clock; it is never read, because registration always supplies both dates.
- `getAllUsers` and `deleteUser` are not modelled: no handler in the modelled core calls them.

## Findings

| source | as written | input that shows it | evidently intended | confidence | as-written member | corrected member |
|---|---|---|---|---|---|---|
| backend/src/schemas/userSchema.ts:17 | The name and lastname class holds twelve Hangul syllables (U+CC3C …), the UTF-8 bytes of áéíóúÁÉÍÓÚñÑ read back in a Korean code page, so accented Spanish names are refused | "José" | The class `[a-zA-ZáéíóúÁÉÍÓÚñÑ\s]` | high, not executed | UserSchema.AccentedNameRejectedAsWritten | UserSchema.AccentedNameAccepted |
