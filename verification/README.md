# ABCRetailers storefront: access gating and record state transitions

A Dafny model of the four controllers of the ABCRetailers storefront that
carry logic: orders, the cart, product administration and the user registry.
Every action is a pure function from the stores and the request inputs to
the action result and the new stores. Session values, model-state validity,
fresh GUIDs, the clock, the image-upload function and the outcome of a
product deletion are all parameters.

- `wrappers.dfy`: `Option` (a C# null) and `Result` (a call that can throw).
- `tables.dfy`: the table store as the list a full scan returns. Each entity
  carries its partition and row key. It defines the LINQ queries the
  controllers run on scans (`FirstOrDefault`, `Where`) and the store calls
  (`GetEntityAsync`, `AddEntityAsync`, `UpdateEntityAsync`,
  `DeleteEntityAsync`). It also proves that each write keeps (partition,
  row) keys unique.
- `web.dfy`: the session (`Username` and `Role`), the Admin test, the
  owner-or-Admin gate and the action results.
- `entities.dfy`: `Customer`, `Product`, `Order`, queue `Message`, and the
  storage state (three tables and the notification queue).
- `orders.dfy`: `OrderController`.
- `carts.dfy`: `CartController`, over the SQL `Cart` table keyed by its
  identity column.
- `products.dfy`: `ProductController`, including where each queue message
  is sent relative to its store write.
- `login.dfy`: `LoginController`.

Behaviour of the code that the model keeps, though a stricter design might expect otherwise:
- Order listing is filtered only when the role is exactly `"Customer"`. A
  session with no role, or with any other role, sees every order.
- Order creation has no quantity check.
- No controller in this core sends `OrderCreated` or `OrderDeleted`
  messages.
- An order edit persists the submitted payload. That includes its `Username`
  and `Status`, and its prices when the product does not exist.

## Model

| member | source | states |
|---|---|---|
| Tables.FirstIndex | Controllers/OrderController.cs:92 | the position found satisfies the predicate and no earlier element does; there is none exactly when no element satisfies it |
| Tables.FirstOrDefault | Controllers/OrderController.cs:97 | returns an element of the list that satisfies the predicate, with no match before it; null exactly when nothing matches |
| Tables.Where | Controllers/OrderController.cs:31 | keeps each element satisfying the predicate as often as it occurs in the input, and no other element |
| Tables.WhereConcat | Controllers/OrderController.cs:31 | Where keeps scan order: filtering a concatenation yields the filtered first part followed by the filtered second part |
| Tables.WhereSingleton | Controllers/OrderController.cs:31 | a single element is kept exactly when it satisfies the predicate |
| Tables.Get | Controllers/OrderController.cs:177 | the row found is stored and carries the requested partition and row key; null exactly when no row does |
| Tables.GetFindsUnique | Controllers/OrderController.cs:216 | with unique keys, a lookup returns the one row holding those keys |
| Tables.Add | Controllers/OrderController.cs:128 | throws exactly when the keys are taken; otherwise the table gains exactly that entity, and a lookup of its keys finds it |
| Tables.Update | Controllers/OrderController.cs:199-200 | throws exactly when no row has the keys; otherwise those rows hold the new entity, every other row is unchanged, and a lookup finds the new entity |
| Tables.Delete | Controllers/OrderController.cs:226 | removes every row with the keys and keeps every other row with its multiplicity; a lookup then finds nothing |
| Tables.DeleteRemovesOne | Controllers/OrderController.cs:226 | with unique keys, deleting an existing row shrinks the table by exactly one |
| Tables.AddKeepsUnique | Controllers/ProductController.cs:83 | a successful add keeps (partition, row) keys unique |
| Tables.UpdateKeepsUnique | Controllers/ProductController.cs:158 | a replace keeps keys unique |
| Tables.DeleteKeepsUnique | Controllers/ProductController.cs:183 | a delete keeps keys unique |
| Orders.Index | Controllers/OrderController.cs:22-35 | role "Customer": exactly the stored orders whose Username equals the session username; any other role, or none, gets all orders |
| Orders.IndexKeepsScanOrder | Controllers/OrderController.cs:26-31 | a "Customer" sees their orders in the order the scan returns them: the listing of two concatenated scans is the concatenation of their listings |
| Orders.ResolveCustomer | Controllers/OrderController.cs:89-98 | the first customer in the scan that resolves: Admin resolves by RowKey == CustomerId, anyone else by Username == session username, where a null Username matches a session without one; the result is a stored customer, null exactly when none resolves |
| Orders.FindProduct | Controllers/OrderController.cs:108 | returns the first stored product in the scan whose RowKey is the order's ProductId, null exactly when none has it |
| Orders.CreateForm | Controllers/OrderController.cs:41-67 | an Admin is offered every customer; anyone else is offered their own customer record, or gets the "not found" text when none has their username (a null Username counts as theirs when the session has none) |
| Orders.NullUsernameResolves | Controllers/OrderController.cs:56 | a session with no username, which this controller never refuses, is matched to a customer stored with a null Username, both by the form and by Create |
| Orders.CreateFormMatchesCreate | Controllers/OrderController.cs:56-63 | for a non-Admin, the one customer the form offers is exactly the customer Create places the order for, and the form refuses exactly when Create would find no customer |
| Orders.Create | Controllers/OrderController.cs:74-131 | invalid model, unresolved customer or missing product each change nothing. A taken key makes the add throw uncaught: a server error with nothing changed. On success exactly one order is added: key ("Order", fresh key), UnitPrice = product price, TotalPrice = price × Quantity, ProductName from the product, Username = session username, CustomerId = resolved customer's RowKey, Status "Submitted". Other tables and the queue are untouched. |
| Orders.Repriced | Controllers/OrderController.cs:192-197 | when the product exists, UnitPrice is its price and TotalPrice is that price × Quantity; otherwise the submitted order is kept as-is; no other field changes |
| Orders.Edit | Controllers/OrderController.cs:173-204 | a missing stored order gives NotFound; a non-Admin who does not own the stored order gets Unauthorized; an invalid model changes nothing. A permitted valid edit succeeds exactly when a row has the payload's keys, and otherwise throws with nothing changed. On success the repriced payload replaces that row, all other rows are unchanged and no other table changes. |
| Orders.Delete | Controllers/OrderController.cs:211-229 | an empty key gives BadRequest, a missing order NotFound, a non-Admin non-owner Unauthorized, and each leaves the store unchanged; otherwise the delete happens and only rows with that key are removed |
| Orders.Show | Controllers/OrderController.cs:235-251 | Details (and Edit GET, lines 137-150): NotFound for an empty or missing key, Unauthorized for a non-Admin non-owner; an Admin or the owner of an existing order always gets the stored order |
| Orders.CreateThenShow | Controllers/OrderController.cs:118-128 | the creator of an order may view it afterwards |
| Orders.CreateKeepsWellKeyed | Controllers/OrderController.cs:118-128 | creating an order keeps table keys unique |
| Orders.EditKeepsWellKeyed | Controllers/OrderController.cs:199-200 | editing an order keeps table keys unique |
| Orders.DeleteRemovesExactlyOne | Controllers/OrderController.cs:216-226 | a permitted delete removes exactly one row |
| Orders.DeleteKeepsWellKeyed | Controllers/OrderController.cs:226 | a delete keeps keys unique, and afterwards the deleted order shows NotFound |
| Orders.EditGateIgnoresPayload | Controllers/OrderController.cs:177-183 | whether Edit answers Unauthorized does not depend on the submitted payload's owner or contents, only on its row key |
| Carts.Index | Controllers/CartController.cs:19-53 | no session username: redirect to login. An Admin sees every row; anyone else sees exactly the rows whose CustomerUsername is theirs, unchanged |
| Carts.Add | Controllers/CartController.cs:70-89 | needs a session username. Exactly one new row under a fresh identity value: CustomerUsername = session username, the given ProductId and Quantity, Status "Submitted". Every other row is unchanged |
| Carts.UpdateStatus | Controllers/CartController.cs:93-108 | a non-Admin gets Unauthorized and an unknown id NotFound, with no change; an Admin naming an existing row always succeeds, and only that row's Status becomes the given string |
| Carts.Remove | Controllers/CartController.cs:112-130 | an unknown id gives NotFound; a caller who is neither Admin nor the row's owner gets Unauthorized and the row stays; the owner or an Admin always succeeds, removing exactly that row |
| Carts.Confirmation | Controllers/CartController.cs:133-158 | no username: redirect and no change. No Submitted rows of the caller: redirect to the cart and no change. A caller with Submitted rows always gets the confirmation page, and every such row becomes "Pending" and every other row is unchanged. |
| Carts.ConfirmationIdempotent | Controllers/CartController.cs:140-155 | a second Confirmation right after the first changes nothing |
| Carts.AddThenConfirm | Controllers/CartController.cs:76-82 | a row the caller adds becomes "Pending" at the caller's next Confirmation |
| Carts.ConfirmationLeavesOthers | Controllers/CartController.cs:140-142 | another user's row is never changed by a Confirmation |
| Carts.IndexMatchesRemove | Controllers/CartController.cs:29-38 | a signed-in non-Admin's cart lists exactly the rows Remove lets that caller delete |
| Products.FileName | Controllers/ProductController.cs:73 | the longest separator-free suffix of the URL |
| Products.FileNameOfSegment | Controllers/ProductController.cs:73 | for a URL ending in "/name", the message's file name is exactly that name |
| Products.IndexIgnoresSession | Controllers/ProductController.cs:31-35 | the product list is the same whoever asks: Index has no gate |
| Products.CreateForm | Controllers/ProductController.cs:37-43 | Unauthorized exactly for non-Admins |
| Products.CreateFormMatchesCreate | Controllers/ProductController.cs:37-52 | the Create form and Create refuse exactly the same sessions |
| Products.AddProduct | Controllers/ProductController.cs:81-94 | the add succeeds exactly when the keys are free, adding just that product; a throw re-shows the form and changes nothing |
| Products.Create | Controllers/ProductController.cs:47-95 | a non-Admin gets Unauthorized with no write and no message; an invalid model changes nothing. "ImageUploaded" with ProductId = RowKey is queued exactly when an image is present and its upload succeeded, whether or not the add then fails. A stored product has partition "Product", the fresh RowKey and no image file. A throwing add re-shows the form with "Failed to create product." |
| Products.EditForm | Controllers/ProductController.cs:97-111 | Unauthorized for non-Admins, NotFound for an empty or missing id; an Admin naming an existing product always gets it |
| Products.UpdateProduct | Controllers/ProductController.cs:154-168 | the update succeeds exactly when a row has the keys, replacing only that row; a throw changes nothing |
| Products.Edit | Controllers/ProductController.cs:113-169 | a non-Admin gets Unauthorized with no write and no message; a missing product gives NotFound. Without a new image the stored ImageURL is the existing product's. With one, "ImageReplaced" is queued and the uploaded URL stored. Once the gate, validity and upload pass, the update succeeds exactly when a row has the payload's keys; otherwise it throws and the form is re-shown with "Failed to update product.". No other product row changes. |
| Products.Delete | Controllers/ProductController.cs:171-205 | a non-Admin gets Unauthorized and an empty key BadRequest, with no change. If the delete throws, nothing changes and no message is sent. Otherwise the product is gone and exactly one "ProductDeleted" message with ProductId = rowKey is queued. |
| Products.MessageOutlivesFailedAdd | Controllers/ProductController.cs:64-94 | if the key is taken after a successful upload, the "ImageUploaded" message stays queued but no product is stored |
| Products.CreateKeepsWellKeyed | Controllers/ProductController.cs:55-83 | creating a product keeps product keys unique |
| Products.EditKeepsWellKeyed | Controllers/ProductController.cs:129-158 | editing a product keeps product keys unique |
| Products.EditThenEditForm | Controllers/ProductController.cs:97-111 | after a successful edit of a "Product" row, the Edit form for that id shows the row just written (NotFound only for the empty id) |
| Products.DeleteKeepsWellKeyed | Controllers/ProductController.cs:183 | deleting a product keeps product keys unique |
| Login.SignIn | Controllers/LoginController.cs:24-43 | succeeds exactly when some user has that Username and PasswordHash == Password. Success sets the session to that user's username and role and goes to AdminDashboard exactly for role "Admin", otherwise CustomerDashboard. Failure leaves the session unchanged |
| Login.Register | Controllers/LoginController.cs:51-76 | a taken username gives an error with the users unchanged; otherwise exactly one user (Username, PasswordHash = Password, Role) is added |
| Login.Logout | Controllers/LoginController.cs:79-83 | the session is left with neither username nor role |
| Login.RegisterKeepsUnique | Controllers/LoginController.cs:56-72 | registration keeps usernames unique |
| Login.RegisterThenSignIn | Controllers/LoginController.cs:28-38 | a user who has just registered logs in with the same credentials and gets the registered role |

## Left out

- Each action is one atomic step, and requests run one after another. Interleavings are not modelled. For example, `Register` checks `AnyAsync` and then inserts, so two concurrent registrations of one username could both pass the check. `Login.RegisterKeepsUnique` holds only for sequential requests.
- `UploadImageAsync`: the HTTP call to the external image function is not modelled. Its answer is an input, either the image URL or a failure.
- `SendMessageAsync` is assumed never to throw. A throw would be caught in product Create and Edit, and in Delete after the row is gone.
- Queue payloads are records, not serialized JSON.
- Store reads never throw. Writes throw only for a taken key (add) or a missing key (update). Whether a product delete throws is an input, because the storage service is not part of this model.
- `UpdateEntityAsync` is a plain row replace: the ETag optimistic-concurrency check is not modelled.
- Prices are `real` numbers with exact multiplication. The source uses `double`, so IEEE rounding is not modelled.
- `Guid.NewGuid()` and `DateTime.UtcNow` are caller-supplied values. For cart rows, the database identity column is a counter kept in the cart state.
- Session values and `ModelState` validity are plain inputs.
- The `[ValidateAntiForgeryToken]` rejection is not modelled. It answers 400 before the action body runs, and changes no state.
- Null route and form strings are written as the empty string.
- SQL Server string comparison is not modelled; the model compares strings exactly. The queries run on SQL Server differ from that in three places:
  - With a case-insensitive collation, the username comparisons in `Register`, `SignIn` and the cart queries would ignore letter case.
  - So would the password comparison in `SignIn` (`PasswordHash == Password`), which would then accept a password that differs only in case.
  - So would Confirmation's `Status == "Submitted"` filter, which would then also move rows whose status is "submitted".
  - SQL Server's `=` ignores trailing spaces whatever the collation, in all of these comparisons.
- `Path.GetFileName` is modelled with '/' and '\\' as separators, as on Windows; Linux hosts split only on '/'. The Windows drive-relative form (`"C:a.png"` gives `"a.png"`) is not modelled; an upload URL never has that shape.
- The order table's partition key is not fixed: Edit writes the payload under the payload's own partition key, and throws when no such row exists.
- A table's row order is the order a scan returns; `FirstOrDefault` and the `Where` listings both depend on it. The model places a new row last. A real table scan returns rows sorted by partition key, then row key; that ordering is not modelled.
- TempData flash messages, ViewBag drop-down contents, and the cart's `CartItemViewModel` projection are not modelled. Neither is the list of rows the Confirmation view shows.
- The Add GET form of the cart only checks the session; it is not modelled.
- SQL `SaveChangesAsync` failures are not modelled.
- `UploadController`, `CustomerController` and `HomeController` are not part of this model. The first moves file bytes through a service that is not shown; the other two are plain CRUD and fixed view data.
- `Program.cs` and the view models are not part of this model either.
