/**
 * The order workflow: listing filtered by role, creation with customer and
 * product resolution and pricing, and the owner-or-Admin gate on editing,
 * deleting and viewing a stored order.
 */
module Orders {
  import opened Wrappers
  import opened Tables
  import opened Web
  import opened Entities

  const IndexPage := Redirect("Order", "Index")

  /** Index: only a caller whose role is exactly "Customer" is filtered to their own orders. */
  function Index(s: Storage, session: Session): (r: seq<Entity<Order>>)
    ensures session.role == Some("Customer") ==>
      forall o :: multiset(r)[o] == if o.value.username == session.username then multiset(s.orders)[o] else 0
    ensures session.role == Some("Customer") ==>
      forall o :: o in r ==> o.value.username == session.username
    ensures session.role != Some("Customer") ==> r == s.orders
  {
    if session.role == Some("Customer") then
      Where(s.orders, (o: Entity<Order>) => o.value.username == session.username)
    else s.orders
  }

  /**
   * Which customer a caller may place an order for: an Admin names one by row
   * key, anyone else is matched by their session username.
   */
  predicate Resolves(session: Session, customerId: string, c: Entity<Customer>) {
    if IsAdmin(session) then c.rowKey == customerId else c.value.username == session.username
  }

  /** The first customer in the scan that resolves. */
  function ResolveCustomer(customers: seq<Entity<Customer>>, session: Session, customerId: string): (r: Option<Entity<Customer>>)
    ensures r.Some? ==> r.value in customers && Resolves(session, customerId, r.value)
    ensures r.Some? ==>
      exists i :: 0 <= i < |customers| && customers[i] == r.value &&
                  forall j :: 0 <= j < i ==> !Resolves(session, customerId, customers[j])
    ensures r.None? <==> forall i :: 0 <= i < |customers| ==> !Resolves(session, customerId, customers[i])
  {
    FirstOrDefault(customers, (c: Entity<Customer>) => Resolves(session, customerId, c))
  }

  /** The first product in the scan whose row key is the given product id. */
  function FindProduct(products: seq<Entity<Product>>, productId: string): (r: Option<Entity<Product>>)
    ensures r.Some? ==> r.value in products && r.value.rowKey == productId
    ensures r.Some? ==>
      exists i :: 0 <= i < |products| && products[i] == r.value &&
                  forall j :: 0 <= j < i ==> products[j].rowKey != productId
    ensures r.None? <==> forall i :: 0 <= i < |products| ==> products[i].rowKey != productId
  {
    FirstOrDefault(products, (p: Entity<Product>) => p.rowKey == productId)
  }

  /** Create (GET): the customers the form offers; a non-Admin without a customer record is refused. */
  function CreateForm(s: Storage, session: Session): (r: Result<seq<Entity<Customer>>, Response>)
    ensures IsAdmin(session) ==> r == Success(s.customers)
    ensures !IsAdmin(session) && r.Success? ==>
      |r.value| == 1 && r.value[0] in s.customers && r.value[0].value.username == session.username
    ensures !IsAdmin(session) && r.Failure? <==>
      !IsAdmin(session) && forall i :: 0 <= i < |s.customers| ==> s.customers[i].value.username != session.username
    ensures r.Failure? ==> r.error == Text("Customer record not found for the logged-in user.")
  {
    if IsAdmin(session) then Success(s.customers)
    else
      match ResolveCustomer(s.customers, session, "")
      case None => Failure(Text("Customer record not found for the logged-in user."))
      case Some(c) => Success([c])
  }

  /**
   * The order Create stores: keyed ("Order", key), priced from the product,
   * owned by the session username and the resolved customer, status
   * "Submitted"; only productId and quantity come from the form.
   */
  predicate Stamped(o: Entity<Order>, form: Order, c: Entity<Customer>, p: Entity<Product>, session: Session, key: string, now: int) {
    && o.partitionKey == OrderPartition
    && o.rowKey == key
    && o.value.customerId == c.rowKey
    && o.value.username == session.username
    && o.value.productId == form.productId
    && o.value.productName == p.value.productName
    && o.value.quantity == form.quantity
    && o.value.unitPrice == p.value.price
    && o.value.totalPrice == p.value.price * form.quantity as real
    && o.value.orderDate == now
    && o.value.status == "Submitted"
  }

  /**
   * Create (POST). `key` stands for Guid.NewGuid() and `now` for
   * DateTime.UtcNow. The store's AddEntity throws on a taken key, and the
   * action does not catch it.
   */
  function Create(s: Storage, session: Session, form: Order, valid: bool, key: string, now: int): (r: Step<Storage>)
    ensures !valid ==> r == Step(Page, s)
    ensures valid && ResolveCustomer(s.customers, session, form.customerId).None? ==>
      r == Step(FormError("Customer record not found."), s)
    ensures valid && ResolveCustomer(s.customers, session, form.customerId).Some? && FindProduct(s.products, form.productId).None? ==>
      r == Step(FormError("Product not found."), s)
    ensures valid && ResolveCustomer(s.customers, session, form.customerId).Some? && FindProduct(s.products, form.productId).Some? &&
            (exists i :: 0 <= i < |s.orders| && HasKey(s.orders[i], OrderPartition, key)) ==>
      r == Step(ServerError, s)
    ensures r.response != IndexPage ==> r.state == s
    ensures r.response == IndexPage <==>
      && valid
      && ResolveCustomer(s.customers, session, form.customerId).Some?
      && FindProduct(s.products, form.productId).Some?
      && forall i :: 0 <= i < |s.orders| ==> !HasKey(s.orders[i], OrderPartition, key)
    ensures r.response == IndexPage ==>
      && r.state.customers == s.customers
      && r.state.products == s.products
      && r.state.queue == s.queue
      && Get(r.state.orders, OrderPartition, key).Some?
      && Stamped(Get(r.state.orders, OrderPartition, key).value, form,
                 ResolveCustomer(s.customers, session, form.customerId).value,
                 FindProduct(s.products, form.productId).value, session, key, now)
      && multiset(r.state.orders) == multiset(s.orders) + multiset{Get(r.state.orders, OrderPartition, key).value}
  {
    if !valid then Step(Page, s)
    else
      match ResolveCustomer(s.customers, session, form.customerId)
      case None => Step(FormError("Customer record not found."), s)
      case Some(c) =>
        match FindProduct(s.products, form.productId)
        case None => Step(FormError("Product not found."), s)
        case Some(p) =>
          var o := Entity(OrderPartition, key, form.(
            orderDate := now,
            productName := p.value.productName,
            unitPrice := p.value.price,
            totalPrice := p.value.price * form.quantity as real,
            customerId := c.rowKey,
            username := session.username,
            status := "Submitted"));
          match Add(s.orders, o)
          case Failure(_) => Step(ServerError, s)
          case Success(orders) => Step(IndexPage, s.(orders := orders))
  }

  /** The payload Edit persists: prices recomputed when the product exists, kept as submitted otherwise. */
  function Repriced(form: Entity<Order>, product: Option<Entity<Product>>): (r: Entity<Order>)
    ensures r.partitionKey == form.partitionKey && r.rowKey == form.rowKey
    ensures r.value == form.value.(unitPrice := r.value.unitPrice, totalPrice := r.value.totalPrice)
    ensures product.Some? ==> r.value.unitPrice == product.value.value.price
    ensures product.Some? ==> r.value.totalPrice == r.value.unitPrice * form.value.quantity as real
    ensures product.None? ==> r == form
  {
    match product
    case None => form
    case Some(p) =>
      form.(value := form.value.(unitPrice := p.value.price, totalPrice := p.value.price * form.value.quantity as real))
  }

  /**
   * Edit (POST). The gate reads the STORED order's owner; the payload,
   * owner included, is then written over the row with the payload's keys.
   */
  function Edit(s: Storage, session: Session, form: Entity<Order>, valid: bool): (r: Step<Storage>)
    ensures Get(s.orders, OrderPartition, form.rowKey).None? ==> r == Step(NotFound, s)
    ensures Get(s.orders, OrderPartition, form.rowKey).Some? &&
            !MayAccess(session, Get(s.orders, OrderPartition, form.rowKey).value.value.username) ==>
      r == Step(Unauthorized, s)
    ensures Get(s.orders, OrderPartition, form.rowKey).Some? &&
            MayAccess(session, Get(s.orders, OrderPartition, form.rowKey).value.value.username) && !valid ==>
      r == Step(Page, s)
    ensures Get(s.orders, OrderPartition, form.rowKey).Some? &&
            MayAccess(session, Get(s.orders, OrderPartition, form.rowKey).value.value.username) && valid ==>
      (r.response == IndexPage <==> exists i :: 0 <= i < |s.orders| && HasKey(s.orders[i], form.partitionKey, form.rowKey))
    ensures r.response == ServerError <==>
      && Get(s.orders, OrderPartition, form.rowKey).Some?
      && MayAccess(session, Get(s.orders, OrderPartition, form.rowKey).value.value.username) && valid
      && forall i :: 0 <= i < |s.orders| ==> !HasKey(s.orders[i], form.partitionKey, form.rowKey)
    ensures r.response != IndexPage ==> r.state == s
    ensures r.response == IndexPage ==>
      && valid
      && Get(s.orders, OrderPartition, form.rowKey).Some?
      && MayAccess(session, Get(s.orders, OrderPartition, form.rowKey).value.value.username)
      && r.state == s.(orders := r.state.orders)
      && |r.state.orders| == |s.orders|
      && Get(r.state.orders, form.partitionKey, form.rowKey) ==
           Some(Repriced(form, Get(s.products, ProductPartition, form.value.productId)))
      && forall i :: 0 <= i < |s.orders| && !HasKey(s.orders[i], form.partitionKey, form.rowKey) ==>
           r.state.orders[i] == s.orders[i]
  {
    match Get(s.orders, OrderPartition, form.rowKey)
    case None => Step(NotFound, s)
    case Some(existing) =>
      if !MayAccess(session, existing.value.username) then Step(Unauthorized, s)
      else if !valid then Step(Page, s)
      else
        var stored := Repriced(form, Get(s.products, ProductPartition, form.value.productId));
        match Update(s.orders, stored)
        case Failure(_) => Step(ServerError, s)
        case Success(orders) => Step(IndexPage, s.(orders := orders))
  }

  /** Delete: exactly the row ("Order", rowKey) goes, once the gate passes. */
  function Delete(s: Storage, session: Session, rowKey: string): (r: Step<Storage>)
    ensures rowKey == "" ==> r == Step(BadRequest, s)
    ensures rowKey != "" && Get(s.orders, OrderPartition, rowKey).None? ==> r == Step(NotFound, s)
    ensures rowKey != "" && Get(s.orders, OrderPartition, rowKey).Some? &&
            !MayAccess(session, Get(s.orders, OrderPartition, rowKey).value.value.username) ==>
      r == Step(Unauthorized, s)
    ensures rowKey != "" && Get(s.orders, OrderPartition, rowKey).Some? &&
            MayAccess(session, Get(s.orders, OrderPartition, rowKey).value.value.username) ==>
      r.response == IndexPage
    ensures r.response != IndexPage ==> r.state == s
    ensures r.response == IndexPage ==>
      && rowKey != ""
      && Get(s.orders, OrderPartition, rowKey).Some?
      && MayAccess(session, Get(s.orders, OrderPartition, rowKey).value.value.username)
      && r.state == s.(orders := r.state.orders)
      && Get(r.state.orders, OrderPartition, rowKey).None?
      && forall o :: multiset(r.state.orders)[o] == if HasKey(o, OrderPartition, rowKey) then 0 else multiset(s.orders)[o]
  {
    if rowKey == "" then Step(BadRequest, s)
    else
      match Get(s.orders, OrderPartition, rowKey)
      case None => Step(NotFound, s)
      case Some(o) =>
        if !MayAccess(session, o.value.username) then Step(Unauthorized, s)
        else Step(IndexPage, s.(orders := Tables.Delete(s.orders, OrderPartition, rowKey)))
  }

  /** Details (and Edit GET, which applies the same checks): the stored order, or the refusal. */
  function Show(s: Storage, session: Session, rowKey: string): (r: Result<Entity<Order>, Response>)
    ensures rowKey == "" ==> r == Failure(NotFound)
    ensures rowKey != "" && Get(s.orders, OrderPartition, rowKey).None? ==> r == Failure(NotFound)
    ensures rowKey != "" && Get(s.orders, OrderPartition, rowKey).Some? &&
            MayAccess(session, Get(s.orders, OrderPartition, rowKey).value.value.username) ==>
      r == Success(Get(s.orders, OrderPartition, rowKey).value)
    ensures r.Failure? ==> r.error in {NotFound, Unauthorized}
    ensures r.Failure? && r.error == Unauthorized ==>
      rowKey != "" && Get(s.orders, OrderPartition, rowKey).Some? && !MayAccess(session, Get(s.orders, OrderPartition, rowKey).value.value.username)
    ensures r.Success? ==>
      r.value in s.orders && HasKey(r.value, OrderPartition, rowKey) && MayAccess(session, r.value.value.username)
  {
    if rowKey == "" then Failure(NotFound)
    else
      match Get(s.orders, OrderPartition, rowKey)
      case None => Failure(NotFound)
      case Some(o) => if MayAccess(session, o.value.username) then Success(o) else Failure(Unauthorized)
  }

  /** A successful Create yields an order its creator may then view. */
  lemma CreateThenShow(s: Storage, session: Session, form: Order, valid: bool, key: string, now: int)
    requires key != ""
    requires Create(s, session, form, valid, key, now).response == IndexPage
    ensures Show(Create(s, session, form, valid, key, now).state, session, key) ==
              Success(Get(Create(s, session, form, valid, key, now).state.orders, OrderPartition, key).value)
  {
  }

  /** Every operation keeps the order table's keys unique. */
  lemma CreateKeepsWellKeyed(s: Storage, session: Session, form: Order, valid: bool, key: string, now: int)
    requires WellKeyed(s)
    ensures WellKeyed(Create(s, session, form, valid, key, now).state)
  {
  }

  lemma EditKeepsWellKeyed(s: Storage, session: Session, form: Entity<Order>, valid: bool)
    requires WellKeyed(s)
    ensures WellKeyed(Edit(s, session, form, valid).state)
  {
  }

  /** A permitted Delete removes exactly one row. */
  lemma DeleteRemovesExactlyOne(s: Storage, session: Session, rowKey: string)
    requires WellKeyed(s)
    requires Delete(s, session, rowKey).response == IndexPage
    ensures |Delete(s, session, rowKey).state.orders| == |s.orders| - 1
  {
    DeleteRemovesOne(s.orders, OrderPartition, rowKey);
  }

  /** After a Delete the keys stay unique, and the deleted order shows NotFound. */
  lemma DeleteKeepsWellKeyed(s: Storage, session: Session, rowKey: string)
    requires WellKeyed(s)
    ensures WellKeyed(Delete(s, session, rowKey).state)
    ensures Delete(s, session, rowKey).response == IndexPage ==>
      Show(Delete(s, session, rowKey).state, session, rowKey) == Failure(NotFound)
  {
    DeleteKeepsUnique(s.orders, OrderPartition, rowKey);
  }

  /**
   * The Create form and Create resolve the same customer for a non-Admin:
   * the one record offered is the one an order would be placed for.
   */
  lemma CreateFormMatchesCreate(s: Storage, session: Session, customerId: string)
    requires !IsAdmin(session)
    ensures CreateForm(s, session).Failure? <==> ResolveCustomer(s.customers, session, customerId).None?
    ensures CreateForm(s, session).Success? ==>
      CreateForm(s, session).value == [ResolveCustomer(s.customers, session, customerId).value]
  {
    assert forall c :: Resolves(session, customerId, c) == Resolves(session, "", c);
  }

  /**
   * With no sign-in check, a session without a username matches a customer
   * stored without one: null equals null, so the form offers it and Create
   * places the order for it.
   */
  lemma NullUsernameResolves(s: Storage, session: Session, customerId: string, i: int)
    requires !IsAdmin(session) && session.username.None?
    requires 0 <= i < |s.customers| && s.customers[i].value.username.None?
    ensures ResolveCustomer(s.customers, session, customerId).Some?
    ensures CreateForm(s, session).Success?
  {
    assert Resolves(session, customerId, s.customers[i]);
    assert Resolves(session, "", s.customers[i]);
  }

  /** A caller whose role is "Customer" sees their orders in scan order: the listing of a concatenation is the concatenation of listings. */
  lemma IndexKeepsScanOrder(s: Storage, session: Session, a: seq<Entity<Order>>, b: seq<Entity<Order>>)
    requires session.role == Some("Customer")
    ensures Index(s.(orders := a + b), session) == Index(s.(orders := a), session) + Index(s.(orders := b), session)
  {
    WhereConcat(a, b, (o: Entity<Order>) => o.value.username == session.username);
  }

  /** Whether Edit refuses a caller depends on the stored order, never on the owner the payload names. */
  lemma EditGateIgnoresPayload(s: Storage, session: Session, f1: Entity<Order>, f2: Entity<Order>, valid: bool)
    requires f1.rowKey == f2.rowKey
    ensures Edit(s, session, f1, valid).response == Unauthorized <==> Edit(s, session, f2, valid).response == Unauthorized
  {
  }
}
