# Order-management backend: sessions, seeding, CRUD contract, pricing and order access

This project models the logic at the centre of a small order-management backend, in Dafny.

- **Users.** The User controller looks users up by email. `login` opens a session by inserting an AccessToken with a two-week ttl. `logout` closes one. The `create` and `updateById` overrides replace a textual password with its bcrypt digest, in the payload object itself, before calling the base CRUD.
- **Migration.** The bootstrap migration creates each table only when the schema lacks it. It then seeds the `admin` role, then the configured admin user. Running it again changes nothing.
- **CRUD.** Every resource controller is built from a generic CRUD engine. Here it is a `Table` class over a map from auto-incremented ids to records. Its methods are `create`, `count`, `fetchAll`, `fetchById`, `updateById`, `destroyById` and `exists`.
- **Orders.**
  - The Order overrides recompute `price` from the selected products and menus through the pricing engine, and discard any price the client sent.
  - Pricing is exact over `real`. Promotions cascade as factors `1 - value/100`: first a product's own, then the factor of the menu holding it.
  - Order endpoints are gated by a bearer-token session and an admin-or-owner rule.

Layout, one module per file:

- `records.dfy`: field values, records, `Option`, `Result` and errors.
- `crud.dfy`: the CRUD table and the CRUD suite's scenario.
- `db.dfy`: the database (the tables, the RoleMapping relation, the schema's table set) and unique-column facts.
- `users.dfy`: the User controller.
- `migrate.dfy`: the migration.
- `pricing.dfy`: the pricing engine.
- `orders.dfy`: the Order overrides and the access rule.

Nondeterministic or external inputs are parameters:

- bcrypt's `hash` and `compare` are function-typed parameters.
- The configured admin account is the `AdminConfig` parameter.
- The product/menu/promotion catalogue the pricing reads is the `Catalogue` parameter.

The base CRUD engine is not part of this model. The CRUD suite loads it as `src/controllers/crud`, and the User controller as `./utils/crud`; the model takes the two paths to be one engine. The `Table` class states what the CRUD suite asserts of it. The Order controller and its pricing code are not part of this model either. The pricing functions state one rule that agrees with the order suite's expected prices: a product's own promotions, then its menu's, as cascading factors. The suite does not settle what a repeated or unknown id costs; "## Left out" says what the model chooses there.

## Model

| member | source | states |
|---|---|---|
| Crud.Table.Create | test/specs/crud.spec.js:30-35 | the returned record is exactly the payload plus the fresh id; it is stored under that id and all other rows are kept |
| Crud.Table.Count | test/specs/crud.spec.js:17-22 | the count is the number of stored rows |
| Crud.Table.FetchAll | test/specs/crud.spec.js:70-75 | the collection holds one entry per stored row, and a record is in it iff some row is that record |
| Crud.Table.FetchById | test/specs/crud.spec.js:78-89 | a stored id gives its row, whose id field is that id; an unknown id gives absent, not a failure |
| Crud.Table.UpdateById | test/specs/crud.spec.js:92-111 | a stored id is patched (new fields win, id kept) and the patched row returned; an unknown id gives absent and changes nothing |
| Crud.Table.DestroyById | test/specs/crud.spec.js:42-56 | exactly that row is removed; nothing is returned |
| Crud.Table.Exists | test/specs/crud.spec.js:58-67 | true iff the criteria are non-empty and some row equals them on every given field; empty criteria give false |
| Crud.AnyMatch | test/specs/crud.spec.js:58-67 | the meaning of `exists(criteria)`: the criteria are non-empty and some stored row agrees with every given field |
| Crud.Patched | test/specs/crud.spec.js:93-102 | an updated row has the union of the old and new fields, the new values win, and the id is kept |
| Crud.ExistsByKey | src/controllers/User.js:29-30 | on a well-keyed table, `exists({id})` holds exactly when `id` is a stored key |
| Crud.StoredRowIsFound | test/specs/crud.spec.js:59-62 | a stored row that agrees with non-empty criteria on every field makes `exists` true |
| Crud.CreateThenDestroy | test/specs/crud.spec.js:30-39 | a create followed by the destroy of its id leaves the rows as they were and returns payload plus id |
| Crud.CrudSuite | test/specs/crud.spec.js:12-117 | every expectation of the suite holds on any valid table, and the suite leaves the rows as it found them |
| Db.FreshValueStaysUnique | src/db/migrate.js:102-108 | inserting a row whose unique-column value no row holds keeps that column unique (Role.name, User.email) |
| Db.IsAdmin | src/db/migrate.js:223 | a user holds the admin role when the RoleMapping relation links it to a role named `admin` |
| Db.LinkAllowed | src/db/migrate.js:165 | the RoleMapping foreign keys: the linked role and the linked user exist |
| Db.Database.Attach | src/db/migrate.js:223 | `attach` adds its link to the RoleMapping relation when the role and the user exist, so at most one new link (none when already present); otherwise it fails with ConstraintViolation and the relation is unchanged; nothing else changes |
| Users.HashedPassword | src/controllers/User.js:47-49 | a textual password is replaced by its digest and every other field is kept; a payload without one is passed on unchanged |
| Users.Visible | src/controllers/User.js:17-19 | a user's JSON form has every column except the password, with the same values |
| Users.PasswordAccepted | src/controllers/User.js:38-39 | login accepts a password when the stored row has a textual digest and `compare` accepts the password against it |
| Users.TokenData | src/controllers/User.js:41-44 | the token payload holds exactly the user id and the ttl 1209600 |
| Users.FetchByEmail | src/controllers/User.js:14-22 | absent iff no user has the email; otherwise a user with that email, in full or without password |
| Users.Login | src/controllers/User.js:33-45 | NotFound iff no user has the email; LoginFailed when the matched user's digest rejects the password; otherwise exactly one new token with that user's id and ttl 1209600; a failure issues no token; with unique emails, success iff the password is accepted |
| Users.Logout | src/controllers/User.js:28-32 | an unknown token fails with LogoutFailed and changes nothing; a known token is removed and no other |
| Users.Create | src/controllers/User.js:46-52 | the payload object's password is hashed in place when textual; the base create stores that payload |
| Users.UpdateById | src/controllers/User.js:53-59 | the same in-place hashing, then the base update on the hashed payload |
| Users.SignupThenLogin | test/integrations/order.js:72-93 | signing up with a fresh email and logging in with the same password succeeds, issuing a token for the new user |
| Migrate.CreateTable | src/db/migrate.js:6-9 | an existing table issues no DDL; a missing one is added and its DDL logged once |
| Migrate.TableSetsListTables | src/db/migrate.js:11-26 | the table sets hold exactly the tables of the creation-order lists |
| Migrate.CreateMainTables | src/db/migrate.js:11-18 | the seven main tables exist afterwards; on an empty schema their DDL runs in call order; if all existed nothing runs |
| Migrate.CreateLiaisonTables | src/db/migrate.js:20-26 | the six liaison tables exist afterwards; if none existed their DDL runs in call order; if all existed nothing runs |
| Migrate.CreateTables | src/db/migrate.js:11-26 | the schema gains exactly the thirteen tables; on an empty schema the DDL log is the thirteen names in call order; if all existed nothing changes |
| Migrate.SeedRole | src/db/migrate.js:201-212 | one pass of the role loop: afterwards a role has the name; an existing name changes nothing; otherwise exactly one row is added and unique names stay unique |
| Migrate.CreateRoles | src/db/migrate.js:198-213 | afterwards every seeded role name exists; existing rows are kept; if all names existed nothing changes; unique role names stay unique |
| Migrate.AdminRow | src/db/migrate.js:222 | the admin user row holds the configured email, the digest of the configured password and its id: the User `create` override takes one argument, ignores the extra `false` and hashes the password |
| Migrate.InsertAdmin | src/db/migrate.js:219-222 | a user with the admin email means no insert; otherwise exactly one row with the configured email and the hashed password is added under a fresh id |
| Migrate.CreateAdmin | src/db/migrate.js:218-224 | an existing admin email changes nothing; otherwise one admin user is inserted with a hashed password and granted the admin role (corrected grant) |
| Migrate.CreateAdminAsWritten | src/db/migrate.js:218-224 | as written: an existing admin email changes nothing and succeeds; otherwise the admin user is inserted and the link (user id, user id) attached, which the store refuses with ConstraintViolation when no role has that id; schema and DDL log are untouched |
| Migrate.AsWrittenGrantMissesAdmin | src/db/migrate.js:223 | when the role with the user's id is not the admin role, the as-written grant leaves the user without admin rights, while linking the admin role's id grants them |
| Migrate.AsWrittenCounterexample | src/db/migrate.js:223 | admin role id 1 and admin user id 2: the as-written link (2, 2) names no role and is refused, so the user stays without the admin role; the corrected link (1, 2) is accepted and grants it |
| Migrate.SeedData | src/db/migrate.js:27-29 | roles are seeded before the admin, so a newly created admin holds the admin role; on seeded data nothing changes |
| Migrate.Migrate | src/db/migrate.js:11-29 | afterwards every table, role and the admin user exist and the new admin is an admin; on a seeded database nothing changes |
| Migrate.SeedDataAsWritten | src/db/migrate.js:27-29 | the data steps with the as-written grant: on seeded data it succeeds and changes nothing; a new admin is inserted, and the grant succeeds iff a role has the admin's id |
| Migrate.MigrateAsWritten | src/db/migrate.js:11-29 | the whole migration as written keeps the idempotence of the corrected one; on a fresh admin it fails with ConstraintViolation, after inserting the admin, exactly when no role has the admin's id |
| Migrate.MigrateAgain | src/db/migrate.js:3-29 | run on a seeded database, the migration leaves the tables, DDL log, users, roles, id counters and role mapping exactly as they were |
| Pricing.Discount | test/integrations/order.js:198 | a promotion of `value` percent multiplies by 1 - value/100; that factor lies in 0..1 exactly when the value lies in 0..100, and is 1 exactly for value 0 |
| Pricing.Factor | test/integrations/order.js:198 | an entity's promotions apply one after another as a product of their factors; none gives 1 |
| Pricing.ProductPrice | test/integrations/order.js:187-199 | a selected product contributes its list price times its own promotions' factor |
| Pricing.ProductsTotal | test/integrations/order.js:187-199 | the selected products contribute the sum of their prices |
| Pricing.InMenu | test/integrations/order.js:198 | a menu's products are each discounted as a product, then by the menu's factor |
| Pricing.MenuPrice | test/integrations/order.js:187-199 | a selected menu contributes its products at their discounted price times the menu's factor |
| Pricing.MenusTotal | test/integrations/order.js:187-199 | the selected menus contribute the sum of their prices |
| Pricing.OrderPrice | test/integrations/order.js:187-199 | an order costs its products' total plus its menus' total |
| Pricing.FactorConcat | test/integrations/order.js:198 | applying one promotion list after another multiplies their factors |
| Pricing.FactorWithinUnit | src/db/migrate.js:50-56 | promotion values in 0..100 give a factor between 0 and 1 |
| Pricing.DiscountAboveHundredIsNegative | src/db/migrate.js:53 | a promotion value above 100 is not clamped and gives a negative factor |
| Pricing.MenuFactorDistributes | test/integrations/order.js:198 | a menu's products cost its factor times their own discounted total |
| Pricing.ProductsTotalConcat | test/integrations/order.js:187-192 | the products' total over a concatenated selection is the sum of the parts |
| Pricing.MenusTotalConcat | test/integrations/order.js:187-192 | the menus' total over a concatenated selection is the sum of the parts |
| Pricing.OrderPriceSplits | test/integrations/order.js:187-199 | an order's price is additive over its selections |
| Pricing.ProductsTotalPermutation | test/integrations/order.js:189-192 | the products' total does not depend on the order of the ids |
| Pricing.MenusTotalPermutation | test/integrations/order.js:189-192 | the menus' total does not depend on the order of the ids |
| Pricing.OrderPriceIgnoresOrder | test/integrations/order.js:189-192 | reordering either selection leaves the price unchanged |
| Pricing.ProductsTotalNonNegative | src/db/migrate.js:63-70 | with non-negative prices and nominal promotions the products' total is non-negative |
| Pricing.MenusTotalNonNegative | src/db/migrate.js:77-83 | with non-negative prices and nominal promotions the menus' total is non-negative |
| Pricing.OrderPriceNonNegative | src/db/migrate.js:89-95 | with nominal data the computed price fits the unsigned Order.price column |
| Pricing.EmptySelectionIsFree | test/integrations/order.js:173-181 | an order selecting nothing costs 0 |
| Pricing.UnpromotedProductAtListPrice | test/integrations/order.js:40-48 | a product without promotions costs its list price |
| Pricing.LonePromotedProduct | test/integrations/order.js:40-57 | a product with one promotion of value v costs price times (1 - v/100) |
| Pricing.PromotedMenuOfPromotedProduct | test/integrations/order.js:30-38 | a promoted menu of one promoted product costs price times the product's factor times the menu's factor |
| Pricing.FixturePrice | test/integrations/order.js:167-199 | the fixture product plus the menu holding it cost 10*0.58 + 10*0.58*0.58 |
| Orders.Selection | test/integrations/order.js:189-192 | the ids a payload selects under `productIds` or `menuIds`; none when the field is absent |
| Orders.SelectionPrice | test/integrations/order.js:187-199 | the price of a payload is the order price of its selected products and menus |
| Orders.PricedRow | test/integrations/order.js:187-199 | the stored row drops the selection fields, keeps the others and sets the price computed from the selection |
| Orders.ClientPriceDiscarded | test/integrations/order.js:173-181 | a payload selecting nothing is stored with price 0, whatever price the client sent |
| Orders.UpdatePropertiesScenario | test/integrations/order.js:210-266 | an order created through the override with a client price (50 or 60) is stored with price 0, and a PATCH or PUT with an empty body returns it with the same id and price 0 |
| Orders.FixtureOrderPrice | test/integrations/order.js:187-199 | creating the fixture order stores the price 10*0.58 + 10*0.58*0.58 |
| Orders.CreateOrder | test/integrations/order.js:173-203 | the base create stores the priced row under a fresh id |
| Orders.UpdateOrder | test/integrations/order.js:220-231 | an update stores the price recomputed from the update's selection; an unknown id changes nothing |
| Orders.Session | test/integrations/order.js:151-153 | no bearer token, or one not in the store, gives no session; otherwise the token's user |
| Orders.Access | test/integrations/order.js:279-304 | Unauthorized without a session, before any existence check; NotFound for an unknown id; allowed iff admin or owner; otherwise Forbidden |
| Orders.DeleteScenario | test/integrations/order.js:268-309 | the delete suite: refused for the other user, allowed for admin, NotFound for an unknown id, Unauthorized without a token |
| Orders.DeleteOrder | test/integrations/order.js:288-304 | the outcome is the access decision; only an allowed request removes exactly that row |
| Orders.FetchOrder | test/integrations/order.js:139-154 | a refused request gives the access error; an allowed one gives the stored row |
| Orders.HeadOrder | test/integrations/order.js:311-335 | HEAD on an order is the access decision: success only for an existing order the requester may see; Unauthorized without a session |
| Orders.CountOrders | test/integrations/order.js:337-350 | Unauthorized iff there is no session; otherwise the number of orders, a natural number |

## Left out

- HTTP routing, status codes, headers and JSON bodies. Outcomes are the `Result`/`Error` datatype. The refused delete in the suite shows up as status 401, and the model calls that case `Forbidden`.
- The table DDL bodies (columns, types, `unsigned`, foreign keys, and the unique constraints on User.email, Product.name, Menu.name and Role.name). A table's existence is a name in `Database.tables`, and its contents are a `Table` map. `Table.Create` does not refuse a duplicate value in a unique column, where the store would; the lemmas that need unique values (`Users.Login`, `Users.SignupThenLogin`, `Migrate.SeedRole`) take `Unique(...)` as a hypothesis or prove that it is preserved instead.
- bcrypt. `hash` and `compare` are uninterpreted parameters. Only `SignupThenLogin` assumes that `compare` accepts a password against its own digest.
- Generated values: UUIDs for tokens and test data, `created_at` and timestamps. Token ids come from an auto-increment counter, like the other tables' ids, so they are naturals that are fresh for the table.
- Token expiry. The ttl is stored but never checked. In the shown code, only `logout`'s `exists` resolves a token, and it ignores the ttl; the code that resolves bearer tokens for order requests is not part of this model.
- async/await, the database connection and config loading. The admin config is a parameter.
- The base CRUD implementation and the Order controller are not part of this model. Their behaviour is stated as the CRUD and order suites assert it.
- Associations. Attaching the `productIds`/`menuIds` selections to the join tables is not modelled. Only their effect on the price is: the selection fields are dropped from the stored row.
- Foreign keys other than those of RoleMapping. Only `Database.Attach` checks its link (role and user must exist); join rows of the other liaison tables are not modelled.
- Non-object payloads to the User overrides. A payload is always a record, so `_.isObject` is always true.
- The suite's `createOrder` helper ignores its product and menu arguments. Its orders are rows with no selection, like those `Orders.UpdatePropertiesScenario` creates.
- Listing orders, and the access rule on update. Fetch, HEAD and delete go through `Access`. Count needs only a session.
- Users.Login: a matched row without a textual password digest fails with LoginFailed. bcrypt would raise its own error there instead.
- Pricing floating point. Prices are exact reals, so `closeTo` becomes equality.
- Orders.UpdateOrder: an update is priced from the update's own payload, so a partial update that selects no products or menus stores price 0 even when the order was priced from an earlier selection. The suite settles only an empty PATCH or PUT of an order with no selection, already stored at price 0; keeping the stored price, or recomputing it from the attached rows, would fit the suite as well.
- Pricing.ProductsTotal: a product id listed twice is charged twice (and likewise `Pricing.MenusTotal` for menus). The suite never repeats an id, and the Order controller is not part of this model, so whether the association would collapse duplicates is not settled.
- Pricing.ProductPrice: an id with no product contributes 0 (and likewise `Pricing.MenuPrice` for menus). The suite never selects an unknown id; the controller might instead reject the order through the foreign key of its join table.
- Migrate.AdminRow: the base `create` is not part of this model, so the meaning its second argument would have (a JSON-output flag, for instance) is not modelled. The User override passes on only the payload, so the `false` cannot reach it.

## Findings

| source | as written | input that shows it | evidently intended | confidence | as-written member | corrected member |
|---|---|---|---|---|---|---|
| src/db/migrate.js:223 | `user.roles().attach(user.id)` grants the role whose id equals the new user's id | User table already used key 1, so the admin user gets id 2, while the admin role has id 1: the link (2, 2) names no role, the RoleMapping foreign key refuses it, and the migration fails with the admin inserted but not granted | attach the id of the role named `admin` | medium, not executed | Migrate.CreateAdminAsWritten | Migrate.CreateAdmin |

The claim assumes that the User `create` at src/db/migrate.js:222 returns a model instance with a `roles()` relation, as the admin delete of the order suite (test/integrations/order.js:294-297) suggests. If it returned plain JSON, line 223 would fail on the missing `roles` whatever the ids. `Migrate.AsWrittenGrantMissesAdmin` and `Migrate.AsWrittenCounterexample` exhibit the discrepancy, and `Migrate.MigrateAsWritten` states the failing migration it causes. When a role does have the admin's id, the as-written link is accepted but grants that role, which is the admin role only by coincidence of ids. `Migrate.Migrate` uses the corrected `Migrate.CreateAdmin`, and its contract proves that a newly seeded admin holds the admin role.
