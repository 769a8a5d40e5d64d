/**
 * The cart: one SQL row per Add, keyed by an identity column, with the
 * status workflow "Submitted" -> "Pending" (Confirmation) -> any status an
 * Admin sets.
 */
module Carts {
  import opened Wrappers
  import opened Web

  const Submitted := "Submitted"
  const Pending := "Pending"
  const CartPage := Redirect("Cart", "Index")

  /** A cart row; its Id is the key it is stored under. */
  datatype Cart = Cart(customerUsername: string, productId: string, quantity: int, status: string)

  /** The Cart table, and the next value of its identity column. */
  datatype CartDb = CartDb(rows: map<int, Cart>, nextId: int)

  /** Identity values start at 1 and every stored id was handed out before nextId. */
  predicate Valid(db: CartDb) {
    db.nextId >= 1 && forall id :: id in db.rows ==> 1 <= id < db.nextId
  }

  /** Index: nothing without a session username; an Admin sees every row, anyone else their own. */
  function Index(db: CartDb, session: Session): (r: Result<map<int, Cart>, Response>)
    ensures !SignedIn(session) ==> r == Failure(LoginPage)
    ensures SignedIn(session) ==> r.Success?
    ensures r.Success? ==> r.value.Keys <= db.rows.Keys
    ensures r.Success? ==> forall id :: id in r.value ==> r.value[id] == db.rows[id]
    ensures r.Success? && IsAdmin(session) ==> r.value == db.rows
    ensures r.Success? && !IsAdmin(session) ==>
      forall id :: id in db.rows ==> (id in r.value <==> Some(db.rows[id].customerUsername) == session.username)
  {
    if !SignedIn(session) then Failure(LoginPage)
    else if IsAdmin(session) then Success(db.rows)
    else Success(map id | id in db.rows && Some(db.rows[id].customerUsername) == session.username :: db.rows[id])
  }

  /** Add (POST): one new "Submitted" row for the caller; quantity and product are not checked. */
  function Add(db: CartDb, session: Session, productId: string, quantity: int): (r: Step<CartDb>)
    requires Valid(db)
    ensures Valid(r.state)
    ensures !SignedIn(session) ==> r == Step(LoginPage, db)
    ensures SignedIn(session) ==>
      && r.response == CartPage
      && db.nextId !in db.rows
      && r.state.rows.Keys == db.rows.Keys + {db.nextId}
      && r.state.rows[db.nextId] == Cart(session.username.value, productId, quantity, Submitted)
      && forall id :: id in db.rows ==> r.state.rows[id] == db.rows[id]
  {
    if !SignedIn(session) then Step(LoginPage, db)
    else
      var row := Cart(session.username.value, productId, quantity, Submitted);
      Step(CartPage, CartDb(db.rows[db.nextId := row], db.nextId + 1))
  }

  /** UpdateStatus: an Admin sets any status on an existing row. */
  function UpdateStatus(db: CartDb, session: Session, id: int, status: string): (r: Step<CartDb>)
    requires Valid(db)
    ensures Valid(r.state)
    ensures !IsAdmin(session) ==> r == Step(Unauthorized, db)
    ensures IsAdmin(session) && id !in db.rows ==> r == Step(NotFound, db)
    ensures IsAdmin(session) && id in db.rows ==> r.response == CartPage
    ensures r.response != CartPage ==> r.state == db
    ensures r.response == CartPage ==>
      && IsAdmin(session) && id in db.rows
      && r.state.nextId == db.nextId
      && r.state.rows.Keys == db.rows.Keys
      && r.state.rows[id] == db.rows[id].(status := status)
      && forall other :: other in db.rows && other != id ==> r.state.rows[other] == db.rows[other]
  {
    if !IsAdmin(session) then Step(Unauthorized, db)
    else if id !in db.rows then Step(NotFound, db)
    else Step(CartPage, db.(rows := db.rows[id := db.rows[id].(status := status)]))
  }

  /** Remove: the row's owner or an Admin deletes exactly that row. */
  function Remove(db: CartDb, session: Session, id: int): (r: Step<CartDb>)
    requires Valid(db)
    ensures Valid(r.state)
    ensures id !in db.rows ==> r == Step(NotFound, db)
    ensures id in db.rows && !MayAccess(session, Some(db.rows[id].customerUsername)) ==> r == Step(Unauthorized, db)
    ensures id in db.rows && MayAccess(session, Some(db.rows[id].customerUsername)) ==> r.response == CartPage
    ensures r.response != CartPage ==> r.state == db
    ensures r.response == CartPage ==>
      && id in db.rows && MayAccess(session, Some(db.rows[id].customerUsername))
      && r.state.nextId == db.nextId
      && r.state.rows.Keys == db.rows.Keys - {id}
      && forall other :: other in r.state.rows ==> r.state.rows[other] == db.rows[other]
  {
    if id !in db.rows then Step(NotFound, db)
    else if !MayAccess(session, Some(db.rows[id].customerUsername)) then Step(Unauthorized, db)
    else Step(CartPage, db.(rows := db.rows - {id}))
  }

  /** The rows Confirmation moves on: the caller's rows still "Submitted". */
  predicate Confirmable(row: Cart, username: string) {
    row.customerUsername == username && row.status == Submitted
  }

  function ConfirmableIds(db: CartDb, username: string): set<int>
  {
    set id | id in db.rows && Confirmable(db.rows[id], username)
  }

  /**
   * Confirmation: the caller's "Submitted" rows all become "Pending" in one
   * save; with none, the caller is sent back to the cart and nothing changes.
   */
  function Confirmation(db: CartDb, session: Session): (r: Step<CartDb>)
    requires Valid(db)
    ensures Valid(r.state)
    ensures !SignedIn(session) ==> r == Step(LoginPage, db)
    ensures SignedIn(session) && ConfirmableIds(db, session.username.value) == {} ==> r == Step(CartPage, db)
    ensures SignedIn(session) && ConfirmableIds(db, session.username.value) != {} ==> r.response == Page
    ensures r.response != Page ==> r.state == db
    ensures r.response == Page ==>
      && SignedIn(session)
      && ConfirmableIds(db, session.username.value) != {}
      && r.state.nextId == db.nextId
      && r.state.rows.Keys == db.rows.Keys
      && forall id :: id in db.rows ==>
           r.state.rows[id] == if Confirmable(db.rows[id], session.username.value) then db.rows[id].(status := Pending) else db.rows[id]
  {
    if !SignedIn(session) then Step(LoginPage, db)
    else
      var user := session.username.value;
      if ConfirmableIds(db, user) == {} then Step(CartPage, db)
      else
        var rows := map id | id in db.rows :: if Confirmable(db.rows[id], user) then db.rows[id].(status := Pending) else db.rows[id];
        Step(Page, db.(rows := rows))
  }

  /** Confirming twice in a row changes nothing the second time: no "Submitted" rows of the caller are left. */
  lemma ConfirmationIdempotent(db: CartDb, session: Session)
    requires Valid(db)
    ensures var once := Confirmation(db, session).state;
      Confirmation(once, session).state == once
  {
  }

  /** A row the caller adds is "Pending" after the caller's next Confirmation. */
  lemma AddThenConfirm(db: CartDb, session: Session, productId: string, quantity: int)
    requires Valid(db)
    requires SignedIn(session)
    ensures var added := Add(db, session, productId, quantity).state;
      var confirmed := Confirmation(added, session);
      confirmed.response == Page && confirmed.state.rows[db.nextId].status == Pending
  {
    var added := Add(db, session, productId, quantity).state;
    assert db.nextId in ConfirmableIds(added, session.username.value);
  }

  /** A signed-in non-Admin lists exactly the rows Remove lets them delete. */
  lemma IndexMatchesRemove(db: CartDb, session: Session, id: int)
    requires Valid(db)
    requires SignedIn(session) && !IsAdmin(session)
    ensures id in Index(db, session).value <==> Remove(db, session, id).response == CartPage
  {
  }

  /** Rows of other users are never touched by a Confirmation. */
  lemma ConfirmationLeavesOthers(db: CartDb, session: Session, id: int)
    requires Valid(db)
    requires id in db.rows
    requires Some(db.rows[id].customerUsername) != session.username
    ensures id in Confirmation(db, session).state.rows
    ensures Confirmation(db, session).state.rows[id] == db.rows[id]
  {
  }
}
