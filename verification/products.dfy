/**
 * Product administration: every mutation is Admin-only, image uploads go to
 * an external function, and image and deletion events are queued at fixed
 * points relative to the store writes.
 */
module Products {
  import opened Wrappers
  import opened Tables
  import opened Web
  import opened Entities

  const IndexPage := Redirect("Product", "Index")

  /** What the external image-upload function answered: the image URL, or a failure (an exception). */
  datatype Upload = Uploaded(url: string) | UploadFailed

  /** The form carries an image file holding at least one byte. */
  predicate HasImage(p: Product) {
    p.imageFile.Some? && p.imageFile.value.length > 0
  }

  predicate IsSeparator(c: char) {
    c == '/' || c == '\\'
  }

  /** Path.GetFileName: the longest suffix of the path holding no directory separator. */
  function FileName(path: string): (r: string)
    ensures |r| <= |path| && r == path[|path| - |r|..]
    ensures forall i :: 0 <= i < |r| ==> !IsSeparator(r[i])
    ensures |r| < |path| ==> IsSeparator(path[|path| - |r| - 1])
    decreases |path|
  {
    if |path| == 0 || IsSeparator(path[|path| - 1]) then ""
    else FileName(path[..|path| - 1]) + [path[|path| - 1]]
  }

  /** The message announcing an uploaded or replaced image. */
  function ImageMessage(kind: EventType, productId: string, url: string, txId: string, now: int): Message {
    Message(NotificationQueue, txId, kind, productId, Some(FileName(url)), now)
  }

  /** Index: every product, whoever asks. */
  function Index(s: Storage, session: Session): seq<Entity<Product>>
  {
    s.products
  }

  /** Create (GET): the form is shown to Admins only. */
  function CreateForm(session: Session): (r: Response)
    ensures r == Unauthorized <==> !IsAdmin(session)
    ensures r != Unauthorized ==> r == Page
  {
    if !IsAdmin(session) then Unauthorized else Page
  }

  /** The AddEntityAsync step of Create; a throw is caught and re-shows the form. */
  function AddProduct(s: Storage, stored: Entity<Product>): (r: Step<Storage>)
    ensures r.state.customers == s.customers && r.state.orders == s.orders && r.state.queue == s.queue
    ensures r.response == IndexPage || r == Step(FormError("Failed to create product."), s)
    ensures r.response == IndexPage <==> forall i :: 0 <= i < |s.products| ==> !HasKey(s.products[i], stored.partitionKey, stored.rowKey)
    ensures r.response == IndexPage ==>
      && Get(r.state.products, stored.partitionKey, stored.rowKey) == Some(stored)
      && multiset(r.state.products) == multiset(s.products) + multiset{stored}
  {
    match Add(s.products, stored)
    case Failure(_) => Step(FormError("Failed to create product."), s)
    case Success(products) => Step(IndexPage, s.(products := products))
  }

  /**
   * Create (POST). `key` and `txId` stand for Guid.NewGuid(), `now` for
   * DateTime.UtcNow. With an image, the upload and its "ImageUploaded"
   * message come BEFORE the product is added, so a failing add leaves the
   * message behind; every exception in the block is caught and re-shows the form.
   */
  function Create(s: Storage, session: Session, form: Product, valid: bool, key: string,
                  upload: Upload, txId: string, now: int): (r: Step<Storage>)
    ensures !IsAdmin(session) ==> r == Step(Unauthorized, s)
    ensures IsAdmin(session) && !valid ==> r == Step(Page, s)
    ensures r.state.customers == s.customers && r.state.orders == s.orders
    ensures !(IsAdmin(session) && valid && HasImage(form) && upload.Uploaded?) ==> r.state.queue == s.queue
    ensures IsAdmin(session) && valid && HasImage(form) && upload.Uploaded? ==>
      r.state.queue == s.queue + [ImageMessage(ImageUploaded, key, upload.url, txId, now)]
    ensures IsAdmin(session) && valid && HasImage(form) && upload.UploadFailed? ==>
      r == Step(FormError("Failed to create product."), s)
    ensures r.response == IndexPage <==>
      && IsAdmin(session) && valid && (HasImage(form) ==> upload.Uploaded?)
      && forall i :: 0 <= i < |s.products| ==> !HasKey(s.products[i], ProductPartition, key)
    ensures IsAdmin(session) && valid && (HasImage(form) ==> upload.Uploaded?) &&
            (exists i :: 0 <= i < |s.products| && HasKey(s.products[i], ProductPartition, key)) ==>
      r.response == FormError("Failed to create product.")
    ensures r.response != IndexPage ==> r.state.products == s.products
    ensures r.response == IndexPage ==>
      && Get(r.state.products, ProductPartition, key).Some?
      && var p := Get(r.state.products, ProductPartition, key).value;
      && p.value.imageFile.None?
      && p.value == form.(imageFile := None, imageUrl := p.value.imageUrl)
      && p.value.imageUrl == (if HasImage(form) then upload.url else form.imageUrl)
      && multiset(r.state.products) == multiset(s.products) + multiset{p}
  {
    if !IsAdmin(session) then Step(Unauthorized, s)
    else if !valid then Step(Page, s)
    else if HasImage(form) && upload.UploadFailed? then Step(FormError("Failed to create product."), s)
    else
      var queue := if HasImage(form) then s.queue + [ImageMessage(ImageUploaded, key, upload.url, txId, now)] else s.queue;
      var url := if HasImage(form) then upload.url else form.imageUrl;
      AddProduct(s.(queue := queue), Entity(ProductPartition, key, form.(imageUrl := url, imageFile := None)))
  }

  /** Edit (GET): an Admin gets the stored product. */
  function EditForm(s: Storage, session: Session, id: string): (r: Result<Entity<Product>, Response>)
    ensures !IsAdmin(session) ==> r == Failure(Unauthorized)
    ensures IsAdmin(session) && (id == "" || Get(s.products, ProductPartition, id).None?) ==> r == Failure(NotFound)
    ensures IsAdmin(session) && id != "" && Get(s.products, ProductPartition, id).Some? ==>
      r == Success(Get(s.products, ProductPartition, id).value)
    ensures r.Success? ==> IsAdmin(session) && r.value in s.products && HasKey(r.value, ProductPartition, id)
  {
    if !IsAdmin(session) then Failure(Unauthorized)
    else if id == "" then Failure(NotFound)
    else
      match Get(s.products, ProductPartition, id)
      case None => Failure(NotFound)
      case Some(p) => Success(p)
  }

  /** The UpdateEntityAsync step of Edit, as replace-row; a throw is caught and re-shows the form. */
  function UpdateProduct(s: Storage, stored: Entity<Product>): (r: Step<Storage>)
    ensures r.state.customers == s.customers && r.state.orders == s.orders && r.state.queue == s.queue
    ensures r.response == IndexPage || r == Step(FormError("Failed to update product."), s)
    ensures r.response == IndexPage <==> exists i :: 0 <= i < |s.products| && HasKey(s.products[i], stored.partitionKey, stored.rowKey)
    ensures r.response == IndexPage ==>
      && |r.state.products| == |s.products|
      && Get(r.state.products, stored.partitionKey, stored.rowKey) == Some(stored)
      && forall i :: 0 <= i < |s.products| && !HasKey(s.products[i], stored.partitionKey, stored.rowKey) ==>
           r.state.products[i] == s.products[i]
  {
    match Update(s.products, stored)
    case Failure(_) => Step(FormError("Failed to update product."), s)
    case Success(products) => Step(IndexPage, s.(products := products))
  }

  /**
   * Edit (POST). Without a new image the stored image URL is carried over;
   * with one, the "ImageReplaced" message is queued before the update.
   */
  function Edit(s: Storage, session: Session, form: Entity<Product>, valid: bool,
                upload: Upload, txId: string, now: int): (r: Step<Storage>)
    ensures !IsAdmin(session) ==> r == Step(Unauthorized, s)
    ensures IsAdmin(session) && !valid ==> r == Step(Page, s)
    ensures IsAdmin(session) && valid && Get(s.products, ProductPartition, form.rowKey).None? ==> r == Step(NotFound, s)
    ensures r.state.customers == s.customers && r.state.orders == s.orders
    ensures IsAdmin(session) && valid && Get(s.products, ProductPartition, form.rowKey).Some? &&
            HasImage(form.value) && upload.UploadFailed? ==>
      r == Step(FormError("Failed to update product."), s)
    ensures IsAdmin(session) && valid && Get(s.products, ProductPartition, form.rowKey).Some? &&
            HasImage(form.value) && upload.Uploaded? ==>
      r.state.queue == s.queue + [ImageMessage(ImageReplaced, form.rowKey, upload.url, txId, now)]
    ensures !(IsAdmin(session) && valid && Get(s.products, ProductPartition, form.rowKey).Some? &&
              HasImage(form.value) && upload.Uploaded?) ==>
      r.state.queue == s.queue
    ensures IsAdmin(session) && valid && Get(s.products, ProductPartition, form.rowKey).Some? &&
            (HasImage(form.value) ==> upload.Uploaded?) ==>
      (r.response == IndexPage <==> exists i :: 0 <= i < |s.products| && HasKey(s.products[i], form.partitionKey, form.rowKey))
    ensures IsAdmin(session) && valid && Get(s.products, ProductPartition, form.rowKey).Some? &&
            (HasImage(form.value) ==> upload.Uploaded?) &&
            (forall i :: 0 <= i < |s.products| ==> !HasKey(s.products[i], form.partitionKey, form.rowKey)) ==>
      r.response == FormError("Failed to update product.")
    ensures r.response != IndexPage ==> r.state.products == s.products
    ensures r.response == IndexPage ==>
      && IsAdmin(session) && valid
      && Get(s.products, ProductPartition, form.rowKey).Some?
      && |r.state.products| == |s.products|
      && Get(r.state.products, form.partitionKey, form.rowKey).Some?
      && var p := Get(r.state.products, form.partitionKey, form.rowKey).value;
      && p.value.imageFile.None?
      && p == form.(value := form.value.(imageFile := None, imageUrl := p.value.imageUrl))
      && (!HasImage(form.value) ==> p.value.imageUrl == Get(s.products, ProductPartition, form.rowKey).value.value.imageUrl)
      && (HasImage(form.value) ==> upload.Uploaded? && p.value.imageUrl == upload.url)
      && forall i :: 0 <= i < |s.products| && !HasKey(s.products[i], form.partitionKey, form.rowKey) ==>
           r.state.products[i] == s.products[i]
  {
    if !IsAdmin(session) then Step(Unauthorized, s)
    else if !valid then Step(Page, s)
    else
      match Get(s.products, ProductPartition, form.rowKey)
      case None => Step(NotFound, s)
      case Some(existing) =>
        if HasImage(form.value) && upload.UploadFailed? then Step(FormError("Failed to update product."), s)
        else
          var queue := if HasImage(form.value) then s.queue + [ImageMessage(ImageReplaced, form.rowKey, upload.url, txId, now)] else s.queue;
          var url := if HasImage(form.value) then upload.url else existing.value.imageUrl;
          UpdateProduct(s.(queue := queue), form.(value := form.value.(imageUrl := url, imageFile := None)))
  }

  /**
   * Delete. `deleteFails` is whether the storage call threw. The
   * "ProductDeleted" message is sent only after the delete returned; either
   * way the caller is redirected to the index.
   */
  function Delete(s: Storage, session: Session, rowKey: string, deleteFails: bool, txId: string, now: int): (r: Step<Storage>)
    ensures !IsAdmin(session) ==> r == Step(Unauthorized, s)
    ensures IsAdmin(session) && rowKey == "" ==> r == Step(BadRequest, s)
    ensures IsAdmin(session) && rowKey != "" ==> r.response == IndexPage
    ensures deleteFails ==> r.state == s
    ensures r.state != s ==>
      && IsAdmin(session) && rowKey != "" && !deleteFails
      && r.state.customers == s.customers && r.state.orders == s.orders
      && Get(r.state.products, ProductPartition, rowKey).None?
      && (forall x :: multiset(r.state.products)[x] == if HasKey(x, ProductPartition, rowKey) then 0 else multiset(s.products)[x])
      && r.state.queue == s.queue + [Message(NotificationQueue, txId, ProductDeleted, rowKey, None, now)]
    ensures IsAdmin(session) && rowKey != "" && !deleteFails ==> |r.state.queue| == |s.queue| + 1
  {
    if !IsAdmin(session) then Step(Unauthorized, s)
    else if rowKey == "" then Step(BadRequest, s)
    else if deleteFails then Step(IndexPage, s)
    else
      Step(IndexPage, s.(
        products := Tables.Delete(s.products, ProductPartition, rowKey),
        queue := s.queue + [Message(NotificationQueue, txId, ProductDeleted, rowKey, None, now)]))
  }

  /** The product list does not depend on who asks. */
  lemma IndexIgnoresSession(s: Storage, a: Session, b: Session)
    ensures Index(s, a) == Index(s, b)
  {
  }

  /** The Create form and Create apply the same Admin gate. */
  lemma CreateFormMatchesCreate(s: Storage, session: Session, form: Product, valid: bool, key: string,
                                upload: Upload, txId: string, now: int)
    ensures CreateForm(session) == Unauthorized <==> Create(s, session, form, valid, key, upload, txId, now).response == Unauthorized
  {
  }

  /** After a successful Edit, the Edit form for that id shows the row just written. */
  lemma EditThenEditForm(s: Storage, session: Session, form: Entity<Product>, valid: bool,
                         upload: Upload, txId: string, now: int)
    requires form.partitionKey == ProductPartition
    requires Edit(s, session, form, valid, upload, txId, now).response == IndexPage
    ensures var t := Edit(s, session, form, valid, upload, txId, now).state;
      EditForm(t, session, form.rowKey) ==
        if form.rowKey == "" then Failure(NotFound) else Success(Get(t.products, ProductPartition, form.rowKey).value)
  {
  }

  /** The image message's file name is the last path segment of the uploaded URL. */
  lemma {:induction false} FileNameOfSegment(dir: string, name: string)
    requires forall i :: 0 <= i < |name| ==> !IsSeparator(name[i])
    ensures FileName(dir + "/" + name) == name
    decreases |name|
  {
    var path := dir + "/" + name;
    if |name| == 0 {
      assert path[|path| - 1] == '/';
    } else {
      var init := name[..|name| - 1];
      assert path[..|path| - 1] == dir + "/" + init;
      assert path[|path| - 1] == name[|name| - 1];
      FileNameOfSegment(dir, init);
      assert init + [name[|name| - 1]] == name;
    }
  }

  /** A failed add after a successful upload leaves the "ImageUploaded" message queued and no product stored. */
  lemma MessageOutlivesFailedAdd(s: Storage, session: Session, form: Product, key: string, url: string, txId: string, now: int)
    requires IsAdmin(session) && HasImage(form)
    requires Get(s.products, ProductPartition, key).Some?
    ensures var r := Create(s, session, form, true, key, Uploaded(url), txId, now);
      && r.response == FormError("Failed to create product.")
      && r.state.products == s.products
      && r.state.queue == s.queue + [ImageMessage(ImageUploaded, key, url, txId, now)]
  {
  }

  /** Product actions keep (partition, row) keys unique. */
  lemma CreateKeepsWellKeyed(s: Storage, session: Session, form: Product, valid: bool,
                             key: string, upload: Upload, txId: string, now: int)
    requires WellKeyed(s)
    ensures WellKeyed(Create(s, session, form, valid, key, upload, txId, now).state)
  {
  }

  lemma EditKeepsWellKeyed(s: Storage, session: Session, form: Entity<Product>, valid: bool,
                           upload: Upload, txId: string, now: int)
    requires WellKeyed(s)
    ensures WellKeyed(Edit(s, session, form, valid, upload, txId, now).state)
  {
  }

  lemma DeleteKeepsWellKeyed(s: Storage, session: Session, rowKey: string, deleteFails: bool, txId: string, now: int)
    requires WellKeyed(s)
    ensures WellKeyed(Delete(s, session, rowKey, deleteFails, txId, now).state)
  {
    DeleteKeepsUnique(s.products, ProductPartition, rowKey);
  }
}
