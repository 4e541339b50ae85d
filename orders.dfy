/**
 * The Order controller and the access rules that guard it: the create and
 * update overrides store a price recomputed from the selected products and
 * menus, and every order operation is gated by a bearer-token session and the
 * admin-or-owner rule.
 */
module Orders {
  import opened Records
  import opened Crud
  import opened Db
  import opened Pricing
  import Users

  /** The ids listed under the attachable field `key` of a payload; none when it is absent. */
  function Selection(data: Record, key: string): seq<nat>
  {
    if key in data && data[key].Ids? then data[key].ids else []
  }

  /** The price the overrides compute for a payload's selection. */
  function SelectionPrice(c: Catalogue, data: Record): real
  {
    OrderPrice(c, Selection(data, "productIds"), Selection(data, "menuIds"))
  }

  /**
   * The row the Order overrides hand to the base CRUD: the attachable
   * selection fields are stripped, any client price is replaced by the computed one.
   */
  function PricedRow(c: Catalogue, data: Record): (row: Record)
    ensures row.Keys == data.Keys - {"productIds", "menuIds"} + {"price"}
    ensures row["price"] == Real(SelectionPrice(c, data))
    ensures forall k :: k in row && k != "price" ==> k in data && row[k] == data[k]
  {
    (data - {"productIds", "menuIds"})["price" := Real(SelectionPrice(c, data))]
  }

  /** A payload that selects nothing is stored with price 0, whatever price the client sent. */
  lemma ClientPriceDiscarded(c: Catalogue, data: Record, clientPrice: real)
    requires Selection(data, "productIds") == [] && Selection(data, "menuIds") == []
    ensures PricedRow(c, data["price" := Real(clientPrice)])["price"] == Real(0.0)
  {
    var sent := data["price" := Real(clientPrice)];
    assert Selection(sent, "productIds") == [] && Selection(sent, "menuIds") == [];
    EmptySelectionIsFree(c);
  }

  /** The fixture order of the create scenario: one promoted product and one promoted menu holding it. */
  lemma FixtureOrderPrice(pid: nat, mid: nat)
    ensures PricedRow(Fixture(pid, mid), map["productIds" := Ids([pid]), "menuIds" := Ids([mid])])["price"]
            == Real(10.0 * 0.58 + 10.0 * 0.58 * 0.58)
  {
    var data := map["productIds" := Ids([pid]), "menuIds" := Ids([mid])];
    assert Selection(data, "productIds") == [pid] && Selection(data, "menuIds") == [mid];
    FixturePrice(pid, mid);
  }

  /** The create override: price recomputed from the selection, then the base create. */
  method CreateOrder(orders: Table, c: Catalogue, data: Record) returns (r: Record)
    requires orders.Valid()
    modifies orders
    ensures orders.Valid()
    ensures r == WithId(PricedRow(c, data), old(orders.nextId))
    ensures orders.rows == old(orders.rows)[old(orders.nextId) := r] && orders.nextId == old(orders.nextId) + 1
  {
    r := orders.Create(PricedRow(c, data));
  }

  /** The update override: price recomputed from the update's selection, then the base update. */
  method UpdateOrder(orders: Table, c: Catalogue, id: nat, data: Record) returns (r: Option<Record>)
    requires orders.Valid()
    modifies orders
    ensures orders.Valid() && orders.nextId == old(orders.nextId)
    ensures id !in old(orders.rows) ==> r == None && orders.rows == old(orders.rows)
    ensures id in old(orders.rows) ==>
      r == Some(Patched(old(orders.rows)[id], PricedRow(c, data), id)) && orders.rows == old(orders.rows)[id := r.value]
    ensures r.Some? ==> r.value["price"] == Real(SelectionPrice(c, data))
  {
    r := orders.UpdateById(id, PricedRow(c, data));
  }

  /**
   * The "Update properties" scenarios of the order suite: an order created
   * through the override with a client price, then a PATCH or PUT with an
   * empty body. The create already stores price 0, and the update reads back
   * with the same id and price 0.
   */
  method UpdatePropertiesScenario(orders: Table, c: Catalogue, clientPrice: real) returns (created: Record, updated: Option<Record>)
    requires orders.Valid()
    modifies orders
    ensures orders.Valid()
    ensures "price" in created && created["price"] == Real(0.0)
    ensures "id" in created && created["id"] == Int(old(orders.nextId))
    ensures updated.Some? && "id" in updated.value && "price" in updated.value
    ensures updated.value["id"] == created["id"] && updated.value["price"] == Real(0.0)
  {
    var data: Record := map["price" := Real(clientPrice)];
    assert Selection(data, "productIds") == [] && Selection(data, "menuIds") == [];
    assert Selection(map[], "productIds") == [] && Selection(map[], "menuIds") == [];
    EmptySelectionIsFree(c);
    var id := orders.nextId;
    created := CreateOrder(orders, c, data);
    updated := UpdateOrder(orders, c, id, map[]);
  }

  /** What the access layer consults: tokens, roles, role mapping and orders. */
  datatype AclState = AclState(tokens: map<nat, Record>, roles: map<nat, Record>, mapping: set<RoleLink>, orders: map<nat, Record>)

  function StateOf(db: Database): AclState
    reads db, db.tokens, db.roles, db.orders
  {
    AclState(db.tokens.rows, db.roles.rows, db.roleMapping, db.orders.rows)
  }

  /** The user a bearer token authenticates; none without a token or for a token not in the store. */
  function Session(tokens: map<nat, Record>, bearer: Option<nat>): (s: Option<int>)
    ensures bearer.None? ==> s.None?
    ensures s.Some? <==> bearer.Some? && bearer.value in tokens && "userId" in tokens[bearer.value] && tokens[bearer.value]["userId"].Int?
    ensures s.Some? ==> tokens[bearer.value]["userId"] == Int(s.value)
  {
    match bearer
    case None => None
    case Some(t) =>
      if t in tokens && "userId" in tokens[t] && tokens[t]["userId"].Int? then Some(tokens[t]["userId"].i) else None
  }

  /** The order's owning user is `uid`; an order without a userId belongs to nobody. */
  predicate Owns(order: Record, uid: int)
  {
    "userId" in order && order["userId"] == Int(uid)
  }

  /**
   * The decision for an operation on order `id`: no session is Unauthorized
   * before anything else, an unknown id is NotFound, and otherwise the
   * requester must hold the admin role or own the order.
   */
  function Access(s: AclState, bearer: Option<nat>, id: nat): (r: Result<()>)
    ensures Session(s.tokens, bearer).None? ==> r == Err(Unauthorized)
    ensures Session(s.tokens, bearer).Some? && id !in s.orders ==> r == Err(NotFound)
    ensures r.Ok? <==> Session(s.tokens, bearer).Some? && id in s.orders &&
                       (IsAdmin(s.roles, s.mapping, Session(s.tokens, bearer).value) || Owns(s.orders[id], Session(s.tokens, bearer).value))
    ensures r.Err? && Session(s.tokens, bearer).Some? && id in s.orders ==> r.error == Forbidden
  {
    match Session(s.tokens, bearer)
    case None => Err(Unauthorized)
    case Some(uid) =>
      if id !in s.orders then Err(NotFound)
      else if IsAdmin(s.roles, s.mapping, uid) || Owns(s.orders[id], uid) then Ok(())
      else Err(Forbidden)
  }

  /**
   * The delete scenario of the order suite: an order created without owner,
   * an admin session and the session of another, non-admin user.
   */
  function DeleteFixture(adminToken: nat, userToken: nat, orderId: nat): AclState
  {
    AclState(
      map[adminToken := WithId(Users.TokenData(Int(1)), adminToken),
          userToken := WithId(Users.TokenData(Int(2)), userToken)],
      map[1 := WithId(Where("name", Str("admin")), 1)],
      {RoleLink(1, 1)},
      map[orderId := WithId(Where("price", Real(0.0)), orderId)])
  }

  /** The suite's outcomes: refused for the other user, allowed for admin, NotFound for an unknown id, Unauthorized without token. */
  lemma DeleteScenario(adminToken: nat, userToken: nat, orderId: nat, unknownId: nat)
    requires adminToken != userToken && unknownId != orderId
    ensures Access(DeleteFixture(adminToken, userToken, orderId), Some(userToken), orderId) == Err(Forbidden)
    ensures Access(DeleteFixture(adminToken, userToken, orderId), Some(adminToken), orderId) == Ok(())
    ensures Access(DeleteFixture(adminToken, userToken, orderId), Some(adminToken), unknownId) == Err(NotFound)
    ensures Access(DeleteFixture(adminToken, userToken, orderId), None, unknownId) == Err(Unauthorized)
  {
    var s := DeleteFixture(adminToken, userToken, orderId);
    assert Session(s.tokens, Some(adminToken)) == Some(1);
    assert Session(s.tokens, Some(userToken)) == Some(2);
    assert IsNamed(s.roles[1], "admin");
    assert IsAdmin(s.roles, s.mapping, 1);
  }

  /** DELETE /orders/:id behind the access rule; only an allowed request removes the row. */
  method DeleteOrder(db: Database, bearer: Option<nat>, id: nat) returns (r: Result<()>)
    requires db.Valid()
    modifies db.orders
    ensures db.Valid()
    ensures r == Access(old(StateOf(db)), bearer, id)
    ensures r.Ok? ==> db.orders.rows == old(db.orders.rows) - {id}
    ensures r.Err? ==> db.orders.rows == old(db.orders.rows)
  {
    r := Access(StateOf(db), bearer, id);
    if r.Ok? {
      db.orders.DestroyById(id);
    }
  }

  /** GET /orders/:id behind the access rule. */
  method FetchOrder(db: Database, bearer: Option<nat>, id: nat) returns (r: Result<Record>)
    requires db.Valid()
    ensures Access(StateOf(db), bearer, id).Err? ==> r == Err(Access(StateOf(db), bearer, id).error)
    ensures Access(StateOf(db), bearer, id).Ok? ==> r == Ok(db.orders.rows[id])
  {
    var decision := Access(StateOf(db), bearer, id);
    if decision.Err? {
      return Err(decision.error);
    }
    r := Ok(db.orders.rows[id]);
  }

  /** HEAD /orders/:id behind the access rule: success says the order exists and the requester may see it. */
  method HeadOrder(db: Database, bearer: Option<nat>, id: nat) returns (r: Result<()>)
    requires db.Valid()
    ensures r == Access(StateOf(db), bearer, id)
    ensures r.Ok? ==> id in db.orders.rows
    ensures Session(db.tokens.rows, bearer).None? ==> r == Err(Unauthorized)
  {
    r := Access(StateOf(db), bearer, id);
  }

  /** GET /orders/count: any session may count; no session is Unauthorized. */
  method CountOrders(db: Database, bearer: Option<nat>) returns (r: Result<nat>)
    requires db.Valid()
    ensures Session(db.tokens.rows, bearer).None? <==> r == Err(Unauthorized)
    ensures r.Ok? ==> r.value == |db.orders.rows|
  {
    if Session(db.tokens.rows, bearer).None? {
      return Err(Unauthorized);
    }
    var n := db.orders.Count();
    r := Ok(n);
  }
}
