/**
 * The order-creation webhook: resolve the store from the shop domain, apply the
 * monthly-order cap, create the order, fulfil every digital line (order item, download
 * link, at most one license key), bump the order counter and write the audit log.
 */
module Webhooks {
  import opened Tables
  import opened PlanModels
  import opened StoreModels
  import opened ProductModels
  import opened OrderModels
  import opened Schema

  const SecondsPerHour: int := 3600

  const LimitMessage: string := "Plan order limit exceeded. Order not fulfilled."
  const FulfilledMessage: string := "Order processed and fulfilled."
  const NoDigitalMessage: string := "Order processed, no digital items."
  const EmailMessage: string := "Download email would be sent to customer."

  /** The log text for an unknown domain; Python renders a missing domain as `None`. */
  function NotFoundMessage(domain: Option<string>): string {
    "Store not found for domain: " + domain.GetOr("None")
  }

  /** The shop domain: the `X-Shopify-Shop-Domain` header when it is non-empty, else the payload's `shop_domain`. */
  function ShopDomain(ev: OrderEvent): (d: Option<string>)
    ensures ev.headerDomain.Some? && ev.headerDomain.value != "" ==> d == ev.headerDomain
    ensures ev.headerDomain.None? || ev.headerDomain.value == "" ==> d == ev.shopDomain
  {
    if ev.headerDomain.Some? && ev.headerDomain.value != "" then ev.headerDomain else ev.shopDomain
  }

  /**
   * A product answers a line when it belongs to the store and carries the line's product
   * and variant ids. An absent product id matches nothing (the column is NOT NULL); an
   * absent variant id matches a NULL variant id (Django's `=None` is `IS NULL`).
   */
  predicate Matches(p: Product, store: nat, line: LineItem) {
    p.store == store && line.productId == Some(p.shopifyProductId) && line.variantId == p.shopifyVariantId
  }

  /** The first product (lowest key) that answers the line. */
  function ProductFor(products: Table<Product>, store: nat, line: LineItem): (r: Option<nat>)
    ensures r.Some? ==> r.value in products.rows && Matches(products.rows[r.value], store, line)
    ensures products.Valid() && r.None? ==> forall k :: k in products.rows ==> !Matches(products.rows[k], store, line)
  {
    products.First((p: Product) => Matches(p, store, line))
  }

  /** A line is fulfilled when its first matching product exists and is digital. */
  predicate IsDigitalLine(products: Table<Product>, store: nat, line: LineItem) {
    var p := ProductFor(products, store, line);
    p.Some? && products.rows[p.value].isDigital
  }

  /** The lowest-key unassigned license key of the product, if the pool has one left. */
  function FreeKey(keys: Table<LicenseKey>, product: nat): (r: Option<nat>)
    ensures r.Some? ==> r.value in keys.rows && keys.rows[r.value].product == product && !keys.rows[r.value].isAssigned
    ensures r.Some? ==> forall k :: k in keys.rows && k < r.value ==> keys.rows[k].product != product || keys.rows[k].isAssigned
    ensures keys.Valid() && r.None? ==> forall k :: k in keys.rows && keys.rows[k].product == product ==> keys.rows[k].isAssigned
  {
    keys.First((k: LicenseKey) => k.product == product && !k.isAssigned)
  }

  /**
   * One line of an order: when it is digital, an order item (quantity defaulting to 1),
   * a download link under `token` expiring `link_expiration_hours` after `now`, and the
   * first free license key of the product, which is then flagged as assigned.
   */
  function FulfilLine(db: Db, store: nat, order: nat, line: LineItem, token: Uuid, now: int): (r: Db)
    ensures r.plans == db.plans && r.stores == db.stores && r.products == db.products
    ensures r.files == db.files && r.orders == db.orders && r.logs == db.logs
    ensures r.links.Keys <= db.links.Keys + {token}
    ensures !IsDigitalLine(db.products, store, line) ==> r == db
  {
    var m := ProductFor(db.products, store, line);
    if m.None? || !db.products.rows[m.value].isDigital then db
    else
      var pid := m.value;
      var db1 := AddItem(db, order, pid, line.quantity.GetOr(DefaultQuantity), token,
                         now + db.products.rows[pid].linkExpirationHours * SecondsPerHour);
      match FreeKey(db.keys, pid)
      case None => db1
      case Some(k) => AssignKey(db1, db.items.next, k)
  }

  /** The order item of a digital line and its download link under `token`. */
  function AddItem(db: Db, order: nat, pid: nat, quantity: int, token: Uuid, expiresAt: int): (r: Db)
    ensures r == db.(items := db.items.Insert(OrderItem(order, pid, quantity)),
                     links := db.links[token := NewDownloadLink(db.items.next, expiresAt)])
  {
    db.(items := db.items.Insert(OrderItem(order, pid, quantity)),
        links := db.links[token := NewDownloadLink(db.items.next, expiresAt)])
  }

  /** Hand license key `k` to order item `item` and flag the key as assigned. */
  function AssignKey(db: Db, item: nat, k: nat): (r: Db)
    requires k in db.keys.rows
    ensures r == db.(assignments := db.assignments.Insert(AssignedLicenseKey(item, k)),
                     keys := db.keys.Set(k, db.keys.rows[k].(isAssigned := true)))
  {
    db.(assignments := db.assignments.Insert(AssignedLicenseKey(item, k)),
        keys := db.keys.Set(k, db.keys.rows[k].(isAssigned := true)))
  }

  /** The lines of an order in payload order; line `i` uses `tokens[i]` for its link. */
  function FulfilLines(db: Db, store: nat, order: nat, lines: seq<LineItem>, tokens: seq<Uuid>, now: int): (r: Db)
    requires |tokens| >= |lines|
    decreases |lines|
    ensures r.plans == db.plans && r.stores == db.stores && r.products == db.products
    ensures r.files == db.files && r.orders == db.orders && r.logs == db.logs
  {
    if lines == [] then db
    else FulfilLines(FulfilLine(db, store, order, lines[0], tokens[0], now), store, order, lines[1..], tokens[1..], now)
  }

  /** The number of digital lines. */
  function DigitalLines(products: Table<Product>, store: nat, lines: seq<LineItem>): (n: nat)
    ensures n <= |lines|
  {
    if lines == [] then 0
    else (if IsDigitalLine(products, store, lines[0]) then 1 else 0) + DigitalLines(products, store, lines[1..])
  }

  /** Some line is digital: the handler's `digital_fulfilled` flag. */
  predicate AnyDigital(products: Table<Product>, store: nat, lines: seq<LineItem>) {
    exists j :: 0 <= j < |lines| && IsDigitalLine(products, store, lines[j])
  }

  /** The whole webhook. */
  function Webhook(db: Db, ev: OrderEvent, tokens: seq<Uuid>, now: int): (r: Response)
    requires |tokens| >= |ev.lineItems|
    ensures FindByDomain(db.stores, ShopDomain(ev)).None? ==>
      r.status == NotFound && r.db.(logs := db.logs) == db
      && r.db.logs == db.logs + [WebhookLog(None, OrderCreate, Error, EventPayload(ev), NotFoundMessage(ShopDomain(ev)))]
    ensures FindByDomain(db.stores, ShopDomain(ev)).Some? ==>
      var sid := FindByDomain(db.stores, ShopDomain(ev)).value;
      var s := db.stores.rows[sid];
      if OrderLimitReached(PlanOf(db.plans, s), s.monthOrderCount) then
        r.status == Forbidden && r.db.(logs := db.logs) == db
        && r.db.logs == db.logs + [WebhookLog(Some(sid), OrderCreate, Skipped, EventPayload(ev), LimitMessage)]
      else
        r.status == Ok && r.db == AcceptOrder(db, sid, ev, tokens, now)
  {
    var domain := ShopDomain(ev);
    match FindByDomain(db.stores, domain)
    case None =>
      Response(WithLogs(db, [WebhookLog(None, OrderCreate, Error, EventPayload(ev), NotFoundMessage(domain))]), NotFound)
    case Some(sid) =>
      var s := db.stores.rows[sid];
      if OrderLimitReached(PlanOf(db.plans, s), s.monthOrderCount) then
        Response(WithLogs(db, [WebhookLog(Some(sid), OrderCreate, Skipped, EventPayload(ev), LimitMessage)]), Forbidden)
      else
        Response(AcceptOrder(db, sid, ev, tokens, now), Ok)
  }

  /**
   * The accepted-order path: record the order, fulfil its lines, bump the month's order
   * counter, and log the outcome and the confirmation email.
   */
  function AcceptOrder(db: Db, sid: nat, ev: OrderEvent, tokens: seq<Uuid>, now: int): (r: Db)
    requires sid in db.stores.rows && |tokens| >= |ev.lineItems|
    ensures r.orders == db.orders.Insert(Order(sid, ev.orderId, ev.email))
    ensures r.stores == db.stores.Set(sid, db.stores.rows[sid].(monthOrderCount := db.stores.rows[sid].monthOrderCount + 1))
    ensures r.plans == db.plans && r.products == db.products && r.files == db.files
    ensures r.logs == db.logs + OutcomeLogs(sid, ev, AnyDigital(db.products, sid, ev.lineItems), db.orders.next)
  {
    var db2 := FulfilLines(RecordOrder(db, sid, ev), sid, db.orders.next, ev.lineItems, tokens, now);
    CountAndLog(db2, sid, ev, AnyDigital(db.products, sid, ev.lineItems), db.orders.next)
  }

  /** `Order.objects.create(...)` for the accepted webhook. */
  function RecordOrder(db: Db, sid: nat, ev: OrderEvent): (r: Db)
    ensures r == db.(orders := db.orders.Insert(Order(sid, ev.orderId, ev.email)))
  {
    db.(orders := db.orders.Insert(Order(sid, ev.orderId, ev.email)))
  }

  /** The counter increment and the two audit rows that close an accepted webhook. */
  function CountAndLog(db: Db, sid: nat, ev: OrderEvent, digital: bool, order: nat): (r: Db)
    requires sid in db.stores.rows
    ensures r.(stores := db.stores, logs := db.logs) == db
    ensures r.stores == db.stores.Set(sid, db.stores.rows[sid].(monthOrderCount := db.stores.rows[sid].monthOrderCount + 1))
    ensures r.logs == db.logs + OutcomeLogs(sid, ev, digital, order)
  {
    var s := db.stores.rows[sid];
    WithLogs(WithStore(db, sid, s.(monthOrderCount := s.monthOrderCount + 1)), OutcomeLogs(sid, ev, digital, order))
  }

  /** The outcome row and the confirmation-email row of an accepted webhook. */
  function OutcomeLogs(sid: nat, ev: OrderEvent, digital: bool, order: nat): (entries: seq<WebhookLog>)
    ensures |entries| == 2 && forall j :: 0 <= j < 2 ==> entries[j].store == Some(sid)
  {
    [WebhookLog(Some(sid), OrderCreate, if digital then Fulfilled else NoDigital, EventPayload(ev),
                if digital then FulfilledMessage else NoDigitalMessage),
     WebhookLog(Some(sid), Email, Sent, EmailPayload(order, ev.email), EmailMessage)]
  }

  /** The first `n` tokens are pairwise distinct and name no existing link (uuid4 is fresh). */
  ghost predicate FreshTokens(links: map<Uuid, DownloadLink>, tokens: seq<Uuid>, n: nat)
    requires n <= |tokens|
  {
    (forall i :: 0 <= i < n ==> tokens[i] !in links)
    && (forall i, j :: 0 <= i < j < n ==> tokens[i] != tokens[j])
  }

  // ---------------------------------------------------------------------------
  // Properties of the fulfilment loop
  // ---------------------------------------------------------------------------

  /** The handler's flag is set exactly when at least one line is digital. */
  lemma {:induction false} AnyDigitalIffSomeDigitalLine(products: Table<Product>, store: nat, lines: seq<LineItem>)
    ensures AnyDigital(products, store, lines) <==> DigitalLines(products, store, lines) > 0
  {
    if lines != [] {
      AnyDigitalIffSomeDigitalLine(products, store, lines[1..]);
      if AnyDigital(products, store, lines[1..]) {
        var j :| 0 <= j < |lines[1..]| && IsDigitalLine(products, store, lines[1..][j]);
        assert IsDigitalLine(products, store, lines[j + 1]);
      }
      if AnyDigital(products, store, lines) && !IsDigitalLine(products, store, lines[0]) {
        var j :| 0 <= j < |lines| && IsDigitalLine(products, store, lines[j]);
        assert j > 0 && IsDigitalLine(products, store, lines[1..][j - 1]);
      }
    }
  }

  /**
   * Exactly one order item and one new link per digital line, and at most one key
   * assignment per order item, whatever the quantities.
   */
  lemma {:induction false} FulfilLinesCounts(db: Db, store: nat, order: nat, lines: seq<LineItem>, tokens: seq<Uuid>, now: int)
    requires |tokens| >= |lines| && FreshTokens(db.links, tokens, |lines|)
    ensures var r := FulfilLines(db, store, order, lines, tokens, now);
      r.items.next == db.items.next + DigitalLines(db.products, store, lines)
      && |r.links| == |db.links| + DigitalLines(db.products, store, lines)
      && db.assignments.next <= r.assignments.next <= db.assignments.next + DigitalLines(db.products, store, lines)
    decreases |lines|
  {
    if lines != [] {
      var db1 := FulfilLine(db, store, order, lines[0], tokens[0], now);
      assert |db1.links| == |db.links| + (if IsDigitalLine(db.products, store, lines[0]) then 1 else 0);
      assert FreshTokens(db1.links, tokens[1..], |lines[1..]|) by {
        forall i | 0 <= i < |lines[1..]| ensures tokens[1..][i] !in db1.links {
          assert tokens[1..][i] == tokens[i + 1] != tokens[0];
        }
      }
      FulfilLinesCounts(db1, store, order, lines[1..], tokens[1..], now);
    }
  }

  /** The rows the loop writes, given that every table's keys come from its sequence. */
  ghost predicate FulfilmentRecords(db: Db, r: Db, store: nat, order: nat, now: int) {
    // existing rows are kept as they were
    r.items.rows.Keys >= db.items.rows.Keys
    && (forall i :: i in db.items.rows ==> r.items.rows[i] == db.items.rows[i])
    && r.assignments.rows.Keys >= db.assignments.rows.Keys
    && (forall a :: a in db.assignments.rows ==> r.assignments.rows[a] == db.assignments.rows[a])
    && (forall u :: u in db.links ==> u in r.links && r.links[u] == db.links[u])
    // keys only ever go from unassigned to assigned
    && r.keys.rows.Keys == db.keys.rows.Keys && r.keys.next == db.keys.next
    && (forall k :: k in db.keys.rows ==>
          r.keys.rows[k].(isAssigned := db.keys.rows[k].isAssigned) == db.keys.rows[k]
          && (db.keys.rows[k].isAssigned ==> r.keys.rows[k].isAssigned))
    // each new item is a line of this order for a digital product of this store
    && (forall i :: i in r.items.rows && i !in db.items.rows ==>
          r.items.rows[i].order == order && r.items.rows[i].product in db.products.rows
          && db.products.rows[r.items.rows[i].product].isDigital
          && db.products.rows[r.items.rows[i].product].store == store)
    // each new link belongs to a new item, starts at 0 downloads and expires after the product's hours
    && (forall u :: u in r.links && u !in db.links ==>
          r.links[u].item in r.items.rows && r.links[u].item !in db.items.rows
          && r.links[u].downloadCount == 0
          && r.links[u].expiresAt == now + db.products.rows[r.items.rows[r.links[u].item].product].linkExpirationHours * SecondsPerHour)
    // each new assignment hands a new item a key of its product that was free, and is now flagged
    && (forall a :: a in r.assignments.rows && a !in db.assignments.rows ==>
          r.assignments.rows[a].item in r.items.rows && r.assignments.rows[a].item !in db.items.rows
          && r.assignments.rows[a].key in db.keys.rows
          && !db.keys.rows[r.assignments.rows[a].key].isAssigned
          && r.keys.rows[r.assignments.rows[a].key].isAssigned
          && db.keys.rows[r.assignments.rows[a].key].product == r.items.rows[r.assignments.rows[a].item].product)
  }

  lemma FulfilLineRecords(db: Db, store: nat, order: nat, line: LineItem, token: Uuid, now: int)
    requires TablesValid(db) && token !in db.links
    ensures FulfilmentRecords(db, FulfilLine(db, store, order, line, token, now), store, order, now)
  {
  }

  /** Records written over all lines, the rows touched by earlier lines included. */
  lemma {:induction false} FulfilLinesRecords(db: Db, store: nat, order: nat, lines: seq<LineItem>, tokens: seq<Uuid>, now: int)
    requires TablesValid(db) && |tokens| >= |lines| && FreshTokens(db.links, tokens, |lines|)
    ensures FulfilmentRecords(db, FulfilLines(db, store, order, lines, tokens, now), store, order, now)
    ensures TablesValid(FulfilLines(db, store, order, lines, tokens, now))
    decreases |lines|
  {
    if lines != [] {
      var db1 := FulfilLine(db, store, order, lines[0], tokens[0], now);
      FulfilLineRecords(db, store, order, lines[0], tokens[0], now);
      assert FreshTokens(db1.links, tokens[1..], |lines[1..]|) by {
        forall i | 0 <= i < |lines[1..]| ensures tokens[1..][i] !in db1.links {
          assert tokens[1..][i] == tokens[i + 1] != tokens[0];
        }
      }
      FulfilLinesRecords(db1, store, order, lines[1..], tokens[1..], now);
      var r := FulfilLines(db1, store, order, lines[1..], tokens[1..], now);
      assert r == FulfilLines(db, store, order, lines, tokens, now);
      RecordsCompose(db, db1, r, store, order, now);
    }
  }

  lemma RecordsCompose(db: Db, db1: Db, r: Db, store: nat, order: nat, now: int)
    requires db1.products == db.products
    requires FulfilmentRecords(db, db1, store, order, now) && FulfilmentRecords(db1, r, store, order, now)
    ensures FulfilmentRecords(db, r, store, order, now)
  {
    forall u | u in r.links && u !in db.links
      ensures r.links[u].item in r.items.rows && r.links[u].item !in db.items.rows
      ensures r.links[u].expiresAt == now + db.products.rows[r.items.rows[r.links[u].item].product].linkExpirationHours * SecondsPerHour
    {
      if u in db1.links {
        assert r.links[u] == db1.links[u];
      }
    }
    forall a | a in r.assignments.rows && a !in db.assignments.rows
      ensures r.assignments.rows[a].item in r.items.rows && r.assignments.rows[a].item !in db.items.rows
      ensures !db.keys.rows[r.assignments.rows[a].key].isAssigned
      ensures db.keys.rows[r.assignments.rows[a].key].product == r.items.rows[r.assignments.rows[a].item].product
    {
      var k := r.assignments.rows[a].key;
      if a in db1.assignments.rows {
        assert r.assignments.rows[a] == db1.assignments.rows[a];
      } else {
        assert db1.keys.rows[k].(isAssigned := db.keys.rows[k].isAssigned) == db.keys.rows[k];
      }
    }
  }

  // ---------------------------------------------------------------------------
  // The database invariant
  // ---------------------------------------------------------------------------

  /** One line keeps the invariant, assuming the order exists and belongs to `store`. */
  lemma FulfilLineKeepsConsistent(db: Db, store: nat, order: nat, line: LineItem, token: Uuid, now: int)
    requires Consistent(db) && order in db.orders.rows && db.orders.rows[order].store == store
    requires token !in db.links
    ensures Consistent(FulfilLine(db, store, order, line, token, now))
  {
    if IsDigitalLine(db.products, store, line) {
      var pid := ProductFor(db.products, store, line).value;
      var it := OrderItem(order, pid, line.quantity.GetOr(DefaultQuantity));
      var link := NewDownloadLink(db.items.next, now + db.products.rows[pid].linkExpirationHours * SecondsPerHour);
      var key := FreeKey(db.keys, pid);
      FulfilLineAddsLine(db, store, order, line, token, now);
      NewItemKeepsConsistent(db, FulfilLine(db, store, order, line, token, now), it, token, link, key);
    }
  }

  /** A digital line writes exactly an item, its link and the product's first free key. */
  lemma FulfilLineAddsLine(db: Db, store: nat, order: nat, line: LineItem, token: Uuid, now: int)
    requires IsDigitalLine(db.products, store, line)
    ensures var pid := ProductFor(db.products, store, line).value;
      AddsLine(db, FulfilLine(db, store, order, line, token, now),
               OrderItem(order, pid, line.quantity.GetOr(DefaultQuantity)), token,
               NewDownloadLink(db.items.next, now + db.products.rows[pid].linkExpirationHours * SecondsPerHour),
               FreeKey(db.keys, pid))
  {
  }

  /** What one fulfilled line writes: an item, a link to it and, optionally, a key assignment. */
  ghost predicate AddsLine(db: Db, r: Db, it: OrderItem, token: Uuid, link: DownloadLink, key: Option<nat>) {
    r.plans == db.plans && r.stores == db.stores && r.products == db.products
    && r.files == db.files && r.orders == db.orders && r.logs == db.logs
    && r.items == db.items.Insert(it) && r.links == db.links[token := link]
    && (key.None? ==> r.keys == db.keys && r.assignments == db.assignments)
    && (key.Some? ==>
          key.value in db.keys.rows
          && r.keys == db.keys.Set(key.value, db.keys.rows[key.value].(isAssigned := true))
          && r.assignments == db.assignments.Insert(AssignedLicenseKey(db.items.next, key.value)))
  }

  /**
   * The invariant survives adding an order item of a product of the order's store, a
   * link to it under an unused token and, optionally, the assignment of a free key.
   */
  lemma NewItemKeepsConsistent(db: Db, r: Db, it: OrderItem, token: Uuid, link: DownloadLink, key: Option<nat>)
    requires Consistent(db) && token !in db.links
    requires it.order in db.orders.rows && it.product in db.products.rows
    requires db.products.rows[it.product].store == db.orders.rows[it.order].store
    requires link.item == db.items.next
    requires key.Some? ==> key.value in db.keys.rows && !db.keys.rows[key.value].isAssigned
    requires AddsLine(db, r, it, token, link, key)
    ensures Consistent(r)
  {
    NewItemTables(db, r, it, token, link, key);
    NewItemReferences(db, r, it, token, link, key);
    NewItemMatchesStore(db, r, it, token, link, key);
    NewItemAssignments(db, r, it, token, link, key);
    assert UniqueColumns(r) && CountersNonNegative(r);
  }

  lemma NewItemTables(db: Db, r: Db, it: OrderItem, token: Uuid, link: DownloadLink, key: Option<nat>)
    requires TablesValid(db) && AddsLine(db, r, it, token, link, key)
    ensures TablesValid(r)
  {
  }

  lemma NewItemReferences(db: Db, r: Db, it: OrderItem, token: Uuid, link: DownloadLink, key: Option<nat>)
    requires ReferencesValid(db) && AddsLine(db, r, it, token, link, key)
    requires it.order in db.orders.rows && it.product in db.products.rows
    requires link.item == db.items.next
    ensures ReferencesValid(r)
  {
    assert forall k :: k in r.keys.rows ==> k in db.keys.rows && r.keys.rows[k].product == db.keys.rows[k].product;
  }

  lemma NewItemMatchesStore(db: Db, r: Db, it: OrderItem, token: Uuid, link: DownloadLink, key: Option<nat>)
    requires ReferencesValid(db) && ItemsMatchStore(db) && AddsLine(db, r, it, token, link, key)
    requires ReferencesValid(r)
    requires it.order in db.orders.rows && it.product in db.products.rows
    requires db.products.rows[it.product].store == db.orders.rows[it.order].store
    ensures ItemsMatchStore(r)
  {
  }

  lemma NewItemAssignments(db: Db, r: Db, it: OrderItem, token: Uuid, link: DownloadLink, key: Option<nat>)
    requires TablesValid(db) && ReferencesValid(db) && AssignmentsValid(db) && AddsLine(db, r, it, token, link, key)
    requires token !in db.links && link.item == db.items.next
    requires key.Some? ==> key.value in db.keys.rows && !db.keys.rows[key.value].isAssigned
    ensures AssignmentsValid(r)
  {
    forall u | u in db.links ensures db.links[u].item != db.items.next {
      assert db.links[u].item in db.items.rows;
    }
    if key.Some? {
      forall a | a in db.assignments.rows
        ensures db.assignments.rows[a].key != key.value && db.assignments.rows[a].item != db.items.next
      {
        assert db.assignments.rows[a].item in db.items.rows;
      }
    }
  }

  lemma {:induction false} FulfilLinesKeepsConsistent(db: Db, store: nat, order: nat, lines: seq<LineItem>, tokens: seq<Uuid>, now: int)
    requires Consistent(db) && order in db.orders.rows && db.orders.rows[order].store == store
    requires |tokens| >= |lines| && FreshTokens(db.links, tokens, |lines|)
    ensures Consistent(FulfilLines(db, store, order, lines, tokens, now))
    decreases |lines|
  {
    if lines != [] {
      var db1 := FulfilLine(db, store, order, lines[0], tokens[0], now);
      FulfilLineKeepsConsistent(db, store, order, lines[0], tokens[0], now);
      assert FreshTokens(db1.links, tokens[1..], |lines[1..]|) by {
        forall i | 0 <= i < |lines[1..]| ensures tokens[1..][i] !in db1.links {
          assert tokens[1..][i] == tokens[i + 1] != tokens[0];
        }
      }
      FulfilLinesKeepsConsistent(db1, store, order, lines[1..], tokens[1..], now);
    }
  }

  /** The webhook keeps the database invariant on every path. */
  lemma WebhookKeepsConsistent(db: Db, ev: OrderEvent, tokens: seq<Uuid>, now: int)
    requires Consistent(db) && |tokens| >= |ev.lineItems| && FreshTokens(db.links, tokens, |ev.lineItems|)
    ensures Consistent(Webhook(db, ev, tokens, now).db)
  {
    var domain := ShopDomain(ev);
    match FindByDomain(db.stores, domain)
    case None =>
      AppendLogsKeepsConsistent(db, [WebhookLog(None, OrderCreate, Error, EventPayload(ev), NotFoundMessage(domain))]);
    case Some(sid) =>
      var s := db.stores.rows[sid];
      if OrderLimitReached(PlanOf(db.plans, s), s.monthOrderCount) {
        AppendLogsKeepsConsistent(db, [WebhookLog(Some(sid), OrderCreate, Skipped, EventPayload(ev), LimitMessage)]);
      } else {
        AcceptOrderKeepsConsistent(db, sid, ev, tokens, now);
      }
  }

  /** The accepted-order path keeps the database invariant. */
  lemma AcceptOrderKeepsConsistent(db: Db, sid: nat, ev: OrderEvent, tokens: seq<Uuid>, now: int)
    requires Consistent(db) && sid in db.stores.rows
    requires |tokens| >= |ev.lineItems| && FreshTokens(db.links, tokens, |ev.lineItems|)
    ensures Consistent(AcceptOrder(db, sid, ev, tokens, now))
  {
    InsertOrderKeepsConsistent(db, Order(sid, ev.orderId, ev.email));
    FulfilLinesKeepsConsistent(RecordOrder(db, sid, ev), sid, db.orders.next, ev.lineItems, tokens, now);
    CountAndLogKeepsConsistent(FulfilLines(RecordOrder(db, sid, ev), sid, db.orders.next, ev.lineItems, tokens, now),
                               sid, ev, AnyDigital(db.products, sid, ev.lineItems), db.orders.next);
  }

  /** Bumping the store's order counter and appending the two audit rows keeps the invariant. */
  lemma CountAndLogKeepsConsistent(db: Db, sid: nat, ev: OrderEvent, digital: bool, order: nat)
    requires Consistent(db) && sid in db.stores.rows
    ensures Consistent(CountAndLog(db, sid, ev, digital, order))
  {
    var r := CountAndLog(db, sid, ev, digital, order);
    forall j | 0 <= j < |r.logs| && r.logs[j].store.Some?
      ensures r.logs[j].store.value in r.stores.rows
    {
      if j >= |db.logs| {
        assert r.logs[j] == OutcomeLogs(sid, ev, digital, order)[j - |db.logs|];
      }
    }
    assert ReferencesValid(r);
    assert UniqueDomains(r.stores);
  }

  /**
   * On success the audit entry says `fulfilled` exactly when an order item was created,
   * and the database gains one order, one item and one link per digital line.
   */
  lemma WebhookFulfilment(db: Db, ev: OrderEvent, tokens: seq<Uuid>, now: int)
    requires |tokens| >= |ev.lineItems| && FreshTokens(db.links, tokens, |ev.lineItems|)
    requires Webhook(db, ev, tokens, now).status == Ok
    ensures var r := Webhook(db, ev, tokens, now).db;
      var n := DigitalLines(db.products, FindByDomain(db.stores, ShopDomain(ev)).value, ev.lineItems);
      r.orders.next == db.orders.next + 1
      && r.items.next == db.items.next + n && |r.links| == |db.links| + n
      && r.assignments.next <= db.assignments.next + n
      && |r.logs| == |db.logs| + 2
      && (r.logs[|db.logs|].status == Fulfilled <==> r.items.next > db.items.next)
  {
    var sid := FindByDomain(db.stores, ShopDomain(ev)).value;
    var db1 := db.(orders := db.orders.Insert(Order(sid, ev.orderId, ev.email)));
    FulfilLinesCounts(db1, sid, db.orders.next, ev.lineItems, tokens, now);
    AnyDigitalIffSomeDigitalLine(db.products, sid, ev.lineItems);
  }

  // ---------------------------------------------------------------------------
  // The monthly-order quota over a run of webhooks
  // ---------------------------------------------------------------------------

  /** Each event in turn against the evolving database, with its own fresh tokens. */
  function RunWebhooks(db: Db, evs: seq<OrderEvent>, tokens: seq<seq<Uuid>>, now: int): (r: (Db, seq<Status>))
    requires |tokens| == |evs| && forall i :: 0 <= i < |evs| ==> |tokens[i]| >= |evs[i].lineItems|
    ensures |r.1| == |evs|
    decreases |evs|
  {
    if evs == [] then (db, [])
    else
      var first := Webhook(db, evs[0], tokens[0], now);
      var rest := RunWebhooks(first.db, evs[1..], tokens[1..], now);
      (rest.0, [first.status] + rest.1)
  }

  /** The conditions of the quota lemmas: each event names store `sid`, whose plan caps orders at `cap`. */
  ghost predicate QuotaSetting(db: Db, sid: nat, cap: int, evs: seq<OrderEvent>) {
    sid in db.stores.rows
    && (forall i :: 0 <= i < |evs| ==> FindByDomain(db.stores, ShopDomain(evs[i])) == Some(sid))
    && PlanOf(db.plans, db.stores.rows[sid]).Some?
    && PlanOf(db.plans, db.stores.rows[sid]).value.maxOrdersPerMonth == Some(cap)
  }

  /** The answers a quota admits: `Ok` while `count + i` is below `cap`, `Forbidden` from then on. */
  function QuotaStatuses(count: int, cap: int, n: nat): (r: seq<Status>)
    ensures |r| == n
    ensures forall i :: 0 <= i < n ==> r[i] == (if count + i < cap then Ok else Forbidden)
  {
    seq(n, i requires 0 <= i < n => if count + i < cap then Ok else Forbidden)
  }

  /** The first answer, then the answers from the counter it leaves behind. */
  lemma QuotaStatusesStep(count: int, cap: int, n: nat)
    requires n > 0
    ensures QuotaStatuses(count, cap, n)
         == [if count < cap then Ok else Forbidden] + QuotaStatuses(if count < cap then count + 1 else count, cap, n - 1)
  {
    var next := if count < cap then count + 1 else count;
    var l := QuotaStatuses(count, cap, n);
    var rr := [if count < cap then Ok else Forbidden] + QuotaStatuses(next, cap, n - 1);
    forall i | 0 <= i < n
      ensures l[i] == rr[i]
    {
      if i > 0 {
        assert rr[i] == QuotaStatuses(next, cap, n - 1)[i - 1];
      }
    }
  }

  /**
   * A store whose plan caps monthly orders at `cap`: of a run of orders for that store,
   * exactly the first `cap - count` are accepted and every later one is refused (all of
   * them when the counter already stands at or above the cap).
   */
  lemma {:induction false} OrderQuotaAdmitsExactlyCap(db: Db, sid: nat, cap: int, evs: seq<OrderEvent>, tokens: seq<seq<Uuid>>, now: int)
    requires |tokens| == |evs| && forall i :: 0 <= i < |evs| ==> |tokens[i]| >= |evs[i].lineItems|
    requires QuotaSetting(db, sid, cap, evs)
    ensures RunWebhooks(db, evs, tokens, now).1 == QuotaStatuses(db.stores.rows[sid].monthOrderCount, cap, |evs|)
    decreases |evs|
  {
    if evs != [] {
      var first := Webhook(db, evs[0], tokens[0], now);
      QuotaStep(db, sid, cap, evs, tokens[0], now);
      OrderQuotaAdmitsExactlyCap(first.db, sid, cap, evs[1..], tokens[1..], now);
      QuotaStatusesStep(db.stores.rows[sid].monthOrderCount, cap, |evs|);
    }
  }

  /**
   * Under the same conditions the month's counter and the Order sequence both advance by
   * the number of orders the cap admits: `min(|evs|, cap - count)`, or none at the cap.
   */
  lemma {:induction false} OrderQuotaCounts(db: Db, sid: nat, cap: int, evs: seq<OrderEvent>, tokens: seq<seq<Uuid>>, now: int)
    requires |tokens| == |evs| && forall i :: 0 <= i < |evs| ==> |tokens[i]| >= |evs[i].lineItems|
    requires QuotaSetting(db, sid, cap, evs)
    ensures var count := db.stores.rows[sid].monthOrderCount;
      var r := RunWebhooks(db, evs, tokens, now);
      sid in r.0.stores.rows
      && r.0.stores.rows[sid].monthOrderCount == count + Admitted(count, cap, |evs|)
      && r.0.orders.next == db.orders.next + Admitted(count, cap, |evs|)
    decreases |evs|
  {
    if evs != [] {
      var first := Webhook(db, evs[0], tokens[0], now);
      QuotaStep(db, sid, cap, evs, tokens[0], now);
      OrderQuotaCounts(first.db, sid, cap, evs[1..], tokens[1..], now);
    }
  }

  /** The first webhook of such a run: its answer and counter move, and the conditions hold for the rest. */
  lemma QuotaStep(db: Db, sid: nat, cap: int, evs: seq<OrderEvent>, tokens: seq<Uuid>, now: int)
    requires evs != [] && |tokens| >= |evs[0].lineItems|
    requires QuotaSetting(db, sid, cap, evs)
    ensures var r := Webhook(db, evs[0], tokens, now);
      var count := db.stores.rows[sid].monthOrderCount;
      QuotaSetting(r.db, sid, cap, evs[1..])
      && r.status == (if count < cap then Ok else Forbidden)
      && r.db.stores.rows[sid].monthOrderCount == (if count < cap then count + 1 else count)
      && r.db.orders.next == db.orders.next + (if count < cap then 1 else 0)
  {
    var r := Webhook(db, evs[0], tokens, now);
    WebhookStoreStep(db, sid, evs[0], tokens, now);
    forall i | 0 <= i < |evs[1..]|
      ensures FindByDomain(r.db.stores, ShopDomain(evs[1..][i])) == Some(sid)
    {
      FindByDomainStable(db.stores, r.db.stores, ShopDomain(evs[i + 1]));
    }
  }

  /**
   * One webhook for a known store: the plan catalogue, the set of stores, every store's
   * domain and plan stay; the store's counter and the order sequence advance exactly
   * when the order is accepted.
   */
  lemma WebhookStoreStep(db: Db, sid: nat, ev: OrderEvent, tokens: seq<Uuid>, now: int)
    requires |tokens| >= |ev.lineItems| && sid in db.stores.rows
    requires FindByDomain(db.stores, ShopDomain(ev)) == Some(sid)
    ensures var r := Webhook(db, ev, tokens, now);
      var s := db.stores.rows[sid];
      var accepted := !OrderLimitReached(PlanOf(db.plans, s), s.monthOrderCount);
      r.db.plans == db.plans
      && r.db.stores.next == db.stores.next && r.db.stores.rows.Keys == db.stores.rows.Keys
      && (forall k :: k in db.stores.rows ==>
            r.db.stores.rows[k].domain == db.stores.rows[k].domain
            && r.db.stores.rows[k].currentPlan == db.stores.rows[k].currentPlan)
      && r.status == (if accepted then Ok else Forbidden)
      && r.db.stores.rows[sid].monthOrderCount == s.monthOrderCount + (if accepted then 1 else 0)
      && r.db.orders.next == db.orders.next + (if accepted then 1 else 0)
  {
  }

  // ---------------------------------------------------------------------------
  // The unknown-domain log row against the declared log table
  // ---------------------------------------------------------------------------

  /**
   * The handler against the log table as declared, whose store column is NOT NULL:
   * the unknown-domain branch inserts a row with no store, the insert raises, and the
   * request ends as an unhandled error (500) with nothing written. The other branches
   * are those of `Webhook`.
   */
  function WebhookAsDeclared(db: Db, ev: OrderEvent, tokens: seq<Uuid>, now: int): (r: Response)
    requires |tokens| >= |ev.lineItems|
    ensures FindByDomain(db.stores, ShopDomain(ev)).None? ==> r.status == ServerError && r.db == db
    ensures FindByDomain(db.stores, ShopDomain(ev)).Some? ==> r == Webhook(db, ev, tokens, now)
  {
    match FindByDomain(db.stores, ShopDomain(ev))
    case None => Response(db, ServerError)
    case Some(_) => Webhook(db, ev, tokens, now)
  }

  /**
   * An order for a shop with no store, against an empty database: the declared schema
   * answers 500 and keeps no trace, where the handler means to answer 404 and leave one
   * `order_create`/`error` row naming no store.
   */
  lemma UnknownShopIsNotLogged(plans: Table<Plan>)
    ensures var ev := OrderEvent(Some("unknown.myshopify.com"), None, 1001, "buyer@example.com", []);
      var declared := WebhookAsDeclared(Empty(plans), ev, [], 0);
      var intended := Webhook(Empty(plans), ev, [], 0);
      declared.status == ServerError && declared.db.logs == []
      && intended.status == NotFound
      && intended.db.logs == [WebhookLog(None, OrderCreate, Error, EventPayload(ev), NotFoundMessage(Some("unknown.myshopify.com")))]
  {
    var ev := OrderEvent(Some("unknown.myshopify.com"), None, 1001, "buyer@example.com", []);
    assert ShopDomain(ev) == Some("unknown.myshopify.com");
    assert FindByDomain(Empty(plans).stores, ShopDomain(ev)).None?;
  }

  // ---------------------------------------------------------------------------
  // The handler
  // ---------------------------------------------------------------------------

  /** One pass of the handler's line loop, updating the tables in place. */
  method FulfilLineInPlace(db: Database, sid: nat, order: nat, line: LineItem, token: Uuid, now: int)
    returns (digital: bool)
    modifies db
    ensures db.State() == FulfilLine(old(db.State()), sid, order, line, token, now)
    ensures digital == IsDigitalLine(old(db.products), sid, line)
  {
    var m := ProductFor(db.products, sid, line);
    digital := m.Some? && db.products.rows[m.value].isDigital;
    if digital {
      ghost var before := db.State();
      var pid := m.value;
      var item := db.items.next;
      var quantity := line.quantity.GetOr(DefaultQuantity);
      var expiresAt := now + db.products.rows[pid].linkExpirationHours * SecondsPerHour;
      AddItemInPlace(db, order, pid, quantity, token, expiresAt);
      ghost var added := db.State();
      var key := FreeKey(db.keys, pid);
      if key.Some? {
        AssignKeyInPlace(db, item, key.value);
        assert FulfilLine(before, sid, order, line, token, now) == AssignKey(added, item, key.value);
      } else {
        assert FulfilLine(before, sid, order, line, token, now) == added;
      }
    }
  }

  /** `OrderItem.objects.create` and `DownloadLink.objects.create`. */
  method AddItemInPlace(db: Database, order: nat, pid: nat, quantity: int, token: Uuid, expiresAt: int)
    modifies db
    ensures db.State() == AddItem(old(db.State()), order, pid, quantity, token, expiresAt)
  {
    var item := db.items.next;
    db.items := db.items.Insert(OrderItem(order, pid, quantity));
    db.links := db.links[token := NewDownloadLink(item, expiresAt)];
  }

  /** `AssignedLicenseKey.objects.create`, then `is_assigned = True` and `save()` on the key. */
  method AssignKeyInPlace(db: Database, item: nat, k: nat)
    requires k in db.keys.rows
    modifies db
    ensures db.State() == AssignKey(old(db.State()), item, k)
  {
    db.assignments := db.assignments.Insert(AssignedLicenseKey(item, k));
    db.keys := db.keys.Set(k, db.keys.rows[k].(isAssigned := true));
  }

  /** The handler's last writes: the month's order counter and the two audit rows. */
  method CloseOrder(db: Database, sid: nat, ev: OrderEvent, digital: bool, order: nat)
    requires sid in db.stores.rows
    modifies db
    ensures db.State() == CountAndLog(old(db.State()), sid, ev, digital, order)
  {
    var store := db.stores.rows[sid];
    db.stores := db.stores.Set(sid, store.(monthOrderCount := store.monthOrderCount + 1));
    db.logs := db.logs + OutcomeLogs(sid, ev, digital, order);
  }

  /** `ShopifyOrderCreateWebhook.post`, writing the database in place step by step. */
  method ShopifyOrderCreate(db: Database, ev: OrderEvent, tokens: seq<Uuid>, now: int) returns (status: Status)
    requires |tokens| >= |ev.lineItems|
    modifies db
    ensures db.State() == Webhook(old(db.State()), ev, tokens, now).db
    ensures status == Webhook(old(db.State()), ev, tokens, now).status
  {
    var domain := ShopDomain(ev);
    var found := FindByDomain(db.stores, domain);
    if found.None? {
      db.logs := db.logs + [WebhookLog(None, OrderCreate, Error, EventPayload(ev), NotFoundMessage(domain))];
      return NotFound;
    }
    var sid := found.value;
    var store := db.stores.rows[sid];
    if OrderLimitReached(PlanOf(db.plans, store), store.monthOrderCount) {
      db.logs := db.logs + [WebhookLog(Some(sid), OrderCreate, Skipped, EventPayload(ev), LimitMessage)];
      return Forbidden;
    }
    var order := db.orders.next;
    ghost var initial := db.State();
    db.orders := db.orders.Insert(Order(sid, ev.orderId, ev.email));
    ghost var start := db.State();
    assert start == RecordOrder(initial, sid, ev);
    var lines := ev.lineItems;
    var digital := false;
    var i := 0;
    while i < |lines|
      invariant 0 <= i <= |lines|
      invariant db.plans == start.plans && db.stores == start.stores && db.products == start.products
      invariant db.files == start.files && db.orders == start.orders && db.logs == start.logs
      invariant FulfilLines(db.State(), sid, order, lines[i..], tokens[i..], now)
             == FulfilLines(start, sid, order, lines, tokens, now)
      invariant digital <==> exists j :: 0 <= j < i && IsDigitalLine(start.products, sid, lines[j])
    {
      ghost var before := db.State();
      var line := lines[i];
      var lineDigital := FulfilLineInPlace(db, sid, order, line, tokens[i], now);
      digital := digital || lineDigital;
      assert lines[i..][1..] == lines[i + 1..] && tokens[i..][1..] == tokens[i + 1..];
      i := i + 1;
    }
    assert lines[i..] == [];
    assert digital == AnyDigital(start.products, sid, lines);
    CloseOrder(db, sid, ev, digital, order);
    status := Ok;
  }
}
