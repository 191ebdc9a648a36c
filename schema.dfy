/**
 * The abstract database the views run against: one table per model, the webhook audit
 * log, and the integrity constraints (foreign keys, UNIQUE columns) together with the
 * invariants the operations keep.
 */
module Schema {
  import opened Tables
  import opened PlanModels
  import opened StoreModels
  import opened ProductModels
  import opened OrderModels

  /** The HTTP status a view answers with. */
  datatype Status = Ok | Created | NoContent | BadRequest | Forbidden | NotFound | Gone | ServerError {
    function Code(): int {
      match this
      case Ok => 200
      case Created => 201
      case NoContent => 204
      case BadRequest => 400
      case Forbidden => 403
      case NotFound => 404
      case Gone => 410
      case ServerError => 500
    }
  }

  /** A view's effect: the database after the request, and the status it answers with. */
  datatype Response = Response(db: Db, status: Status)

  /** One line of an order webhook; `None` stands for a key absent from the JSON. */
  datatype LineItem = LineItem(productId: Option<int>, variantId: Option<int>, quantity: Option<int>)

  /** The order-creation webhook: the domain header, and the payload's domain, id, email and lines. */
  datatype OrderEvent = OrderEvent(
    headerDomain: Option<string>,
    shopDomain: Option<string>,
    orderId: int,
    email: string,
    lineItems: seq<LineItem>)

  datatype WebhookType = OrderCreate | Email

  /** The `status` strings written to the log. */
  datatype LogStatus = Error | Skipped | Fulfilled | NoDigital | Sent

  datatype LogPayload = EventPayload(event: OrderEvent) | EmailPayload(orderId: nat, email: string)

  /**
   * An audit row of webhook processing. The store is optional here: the handler writes
   * a row with no store when the domain is unknown, although the log model declares
   * the column NOT NULL.
   */
  datatype WebhookLog = WebhookLog(
    store: Option<nat>,
    webhookType: WebhookType,
    status: LogStatus,
    payload: LogPayload,
    message: string)

  /** The whole database. Download links are keyed by their (unique) uuid. */
  datatype Db = Db(
    plans: Table<Plan>,
    stores: Table<Store>,
    products: Table<Product>,
    files: Table<File>,
    keys: Table<LicenseKey>,
    orders: Table<Order>,
    items: Table<OrderItem>,
    links: map<Uuid, DownloadLink>,
    assignments: Table<AssignedLicenseKey>,
    logs: seq<WebhookLog>)

  /** `store.current_plan`: the referenced plan row, or none. */
  function PlanOf(plans: Table<Plan>, s: Store): (p: Option<Plan>)
    ensures p.Some? <==> s.currentPlan.Some? && s.currentPlan.value in plans.rows
    ensures p.Some? ==> p.value == plans.rows[s.currentPlan.value]
  {
    if s.currentPlan.Some? && s.currentPlan.value in plans.rows then Some(plans.rows[s.currentPlan.value]) else None
  }

  /** Every primary key was handed out by the table's sequence. */
  ghost predicate TablesValid(db: Db) {
    db.plans.Valid() && db.stores.Valid() && db.products.Valid() && db.files.Valid()
    && db.keys.Valid() && db.orders.Valid() && db.items.Valid() && db.assignments.Valid()
  }

  /** `store.current_plan` names a plan. */
  ghost predicate StoresReferPlans(stores: Table<Store>, plans: Table<Plan>) {
    forall s :: s in stores.rows && stores.rows[s].currentPlan.Some? ==> stores.rows[s].currentPlan.value in plans.rows
  }

  /** `product.store` names a store. */
  ghost predicate ProductsReferStores(products: Table<Product>, stores: Table<Store>) {
    forall p :: p in products.rows ==> products.rows[p].store in stores.rows
  }

  /** `file.product` names a product. */
  ghost predicate FilesReferProducts(files: Table<File>, products: Table<Product>) {
    forall f :: f in files.rows ==> files.rows[f].product in products.rows
  }

  /** `license_key.product` names a product. */
  ghost predicate KeysReferProducts(keys: Table<LicenseKey>, products: Table<Product>) {
    forall k :: k in keys.rows ==> keys.rows[k].product in products.rows
  }

  /** `order.store` names a store. */
  ghost predicate OrdersReferStores(orders: Table<Order>, stores: Table<Store>) {
    forall o :: o in orders.rows ==> orders.rows[o].store in stores.rows
  }

  /** `order_item.order` and `order_item.product` name rows. */
  ghost predicate ItemsReferRows(items: Table<OrderItem>, orders: Table<Order>, products: Table<Product>) {
    forall i :: i in items.rows ==> items.rows[i].order in orders.rows && items.rows[i].product in products.rows
  }

  /** `download_link.order_item` names an order item. */
  ghost predicate LinksReferItems(links: map<Uuid, DownloadLink>, items: Table<OrderItem>) {
    forall u :: u in links ==> links[u].item in items.rows
  }

  /** `assigned_license_key.order_item` and `.license_key` name rows. */
  ghost predicate AssignmentsReferRows(assignments: Table<AssignedLicenseKey>, items: Table<OrderItem>, keys: Table<LicenseKey>) {
    forall a :: a in assignments.rows ==> assignments.rows[a].item in items.rows && assignments.rows[a].key in keys.rows
  }

  /** A log row's store, when present, names a store. */
  ghost predicate LogsReferStores(logs: seq<WebhookLog>, stores: Table<Store>) {
    forall j :: 0 <= j < |logs| && logs[j].store.Some? ==> logs[j].store.value in stores.rows
  }

  /** Every foreign key names an existing row. */
  ghost predicate ReferencesValid(db: Db) {
    StoresReferPlans(db.stores, db.plans)
    && ProductsReferStores(db.products, db.stores)
    && FilesReferProducts(db.files, db.products)
    && KeysReferProducts(db.keys, db.products)
    && OrdersReferStores(db.orders, db.stores)
    && ItemsReferRows(db.items, db.orders, db.products)
    && LinksReferItems(db.links, db.items)
    && AssignmentsReferRows(db.assignments, db.items, db.keys)
    && LogsReferStores(db.logs, db.stores)
  }

  /** The UNIQUE columns: store domain, product variant id, plan name. */
  ghost predicate UniqueColumns(db: Db) {
    UniqueDomains(db.stores) && UniqueVariants(db.products) && UniqueNames(db.plans)
  }

  /** Every assigned key carries the `is_assigned` flag. */
  ghost predicate AssignedKeysFlagged(assignments: Table<AssignedLicenseKey>, keys: Table<LicenseKey>) {
    forall a :: a in assignments.rows ==>
      assignments.rows[a].key in keys.rows && keys.rows[assignments.rows[a].key].isAssigned
  }

  /** No key is assigned twice and no order item receives two keys. */
  ghost predicate AssignmentsSingle(assignments: Table<AssignedLicenseKey>) {
    forall a, b :: a in assignments.rows && b in assignments.rows && a != b ==>
      assignments.rows[a].key != assignments.rows[b].key && assignments.rows[a].item != assignments.rows[b].item
  }

  /** No order item receives two download links. */
  ghost predicate LinksSingle(links: map<Uuid, DownloadLink>) {
    forall u, v :: u in links && v in links && u != v ==> links[u].item != links[v].item
  }

  /** Key assignment is one-way and single, and every order item has at most one link. */
  ghost predicate AssignmentsValid(db: Db) {
    AssignedKeysFlagged(db.assignments, db.keys) && AssignmentsSingle(db.assignments) && LinksSingle(db.links)
  }

  /** An order item's product belongs to the store that received the order. */
  ghost predicate ItemsMatch(items: Table<OrderItem>, orders: Table<Order>, products: Table<Product>)
    requires ItemsReferRows(items, orders, products)
  {
    forall i :: i in items.rows ==> products.rows[items.rows[i].product].store == orders.rows[items.rows[i].order].store
  }

  /** `ItemsMatch` over the database's own tables. */
  ghost predicate ItemsMatchStore(db: Db)
    requires ReferencesValid(db)
  {
    ItemsMatch(db.items, db.orders, db.products)
  }

  /** The product and monthly-order counters never go below zero. */
  ghost predicate Counters(stores: Table<Store>) {
    forall s :: s in stores.rows ==> stores.rows[s].productCount >= 0 && stores.rows[s].monthOrderCount >= 0
  }

  /** The counters of every store row are non-negative. */
  ghost predicate CountersNonNegative(db: Db) {
    Counters(db.stores)
  }

  /** The database invariant every operation keeps. */
  ghost predicate Consistent(db: Db) {
    TablesValid(db) && ReferencesValid(db) && UniqueColumns(db) && AssignmentsValid(db)
    && ItemsMatchStore(db) && CountersNonNegative(db)
  }

  /** UPDATE of one store row. */
  function WithStore(db: Db, sid: nat, s: Store): (r: Db)
    requires sid in db.stores.rows
    ensures r == db.(stores := db.stores.Set(sid, s))
  {
    db.(stores := db.stores.Set(sid, s))
  }

  /** Appending rows to the webhook log. */
  function WithLogs(db: Db, entries: seq<WebhookLog>): (r: Db)
    ensures r == db.(logs := db.logs + entries)
  {
    db.(logs := db.logs + entries)
  }

  /**
   * Rewriting one store row keeps the invariant when its domain stays unique, its plan
   * reference names a plan and its counters stay non-negative.
   */
  lemma StoreUpdateKeepsConsistent(db: Db, sid: nat, s: Store)
    requires Consistent(db) && sid in db.stores.rows
    requires forall k :: k in db.stores.rows && k != sid ==> db.stores.rows[k].domain != s.domain
    requires s.currentPlan.Some? ==> s.currentPlan.value in db.plans.rows
    requires s.productCount >= 0 && s.monthOrderCount >= 0
    ensures Consistent(WithStore(db, sid, s))
  {
    var r := WithStore(db, sid, s);
    assert r.stores.rows.Keys == db.stores.rows.Keys;
    assert StoresReferPlans(r.stores, r.plans);
    assert ProductsReferStores(r.products, r.stores);
    assert OrdersReferStores(r.orders, r.stores);
    assert LogsReferStores(r.logs, r.stores);
    assert UniqueDomains(r.stores);
    assert Counters(r.stores);
  }

  /** Appending audit rows that name existing stores keeps the invariant. */
  lemma AppendLogsKeepsConsistent(db: Db, entries: seq<WebhookLog>)
    requires Consistent(db)
    requires forall j :: 0 <= j < |entries| && entries[j].store.Some? ==> entries[j].store.value in db.stores.rows
    ensures Consistent(WithLogs(db, entries))
  {
    var r := WithLogs(db, entries);
    forall j | 0 <= j < |r.logs| && r.logs[j].store.Some?
      ensures r.logs[j].store.value in r.stores.rows
    {
      if j >= |db.logs| {
        assert r.logs[j] == entries[j - |db.logs|];
      }
    }
    assert LogsReferStores(r.logs, r.stores);
  }

  /** UPDATE of one download link. */
  function WithLink(db: Db, u: Uuid, link: DownloadLink): (r: Db)
    ensures r == db.(links := db.links[u := link])
  {
    db.(links := db.links[u := link])
  }

  /** Rewriting a download link's other fields, keeping its order item, keeps the invariant. */
  lemma LinkUpdateKeepsConsistent(db: Db, u: Uuid, link: DownloadLink)
    requires Consistent(db) && u in db.links && link.item == db.links[u].item
    ensures Consistent(WithLink(db, u, link))
  {
    LinkRewriteKeepsLinks(db.links, db.items, u, link);
  }

  /** Rewriting a link without moving it to another order item keeps both link predicates. */
  lemma LinkRewriteKeepsLinks(links: map<Uuid, DownloadLink>, items: Table<OrderItem>, u: Uuid, link: DownloadLink)
    requires LinksReferItems(links, items) && LinksSingle(links)
    requires u in links && link.item == links[u].item
    ensures LinksReferItems(links[u := link], items) && LinksSingle(links[u := link])
  {
  }

  /** Inserting an order of an existing store keeps the invariant. */
  lemma InsertOrderKeepsConsistent(db: Db, o: Order)
    requires Consistent(db) && o.store in db.stores.rows
    ensures Consistent(db.(orders := db.orders.Insert(o)))
  {
    var r := db.(orders := db.orders.Insert(o));
    assert db.orders.next !in db.orders.rows;
    assert OrdersReferStores(r.orders, r.stores);
    assert ItemsReferRows(r.items, r.orders, r.products);
    assert ItemsMatch(r.items, r.orders, r.products);
  }

  /** The empty database over a plan catalogue. */
  function Empty(plans: Table<Plan>): (db: Db)
    ensures db.plans == plans && db.stores.rows == map[] && db.products.rows == map[] && db.logs == []
  {
    Db(plans, Table(map[], 0), Table(map[], 0), Table(map[], 0), Table(map[], 0),
       Table(map[], 0), Table(map[], 0), map[], Table(map[], 0), [])
  }

  /** A fresh database is consistent once its plan catalogue is. */
  lemma EmptyConsistent(plans: Table<Plan>)
    requires plans.Valid() && UniqueNames(plans)
    ensures Consistent(Empty(plans))
  {
  }

  /** The live database: one mutable field per table, updated in place by the views. */
  class Database {
    var plans: Table<Plan>
    var stores: Table<Store>
    var products: Table<Product>
    var files: Table<File>
    var keys: Table<LicenseKey>
    var orders: Table<Order>
    var items: Table<OrderItem>
    var links: map<Uuid, DownloadLink>
    var assignments: Table<AssignedLicenseKey>
    var logs: seq<WebhookLog>

    /** The current contents of all tables. */
    function State(): Db
      reads this
    {
      Db(plans, stores, products, files, keys, orders, items, links, assignments, logs)
    }

    /** A database holding only the plan catalogue. */
    constructor (catalogue: Table<Plan>)
      ensures State() == Empty(catalogue)
    {
      plans := catalogue;
      stores, products, files, keys := Table(map[], 0), Table(map[], 0), Table(map[], 0), Table(map[], 0);
      orders, items, links, assignments := Table(map[], 0), Table(map[], 0), map[], Table(map[], 0);
      logs := [];
    }
  }
}
