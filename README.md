# Sellkite digital downloads: a verified model of the business core

Sellkite is a Django backend that sells digital goods through a Shopify shop. It
has five request paths with business logic:

- **Order webhook.** The shop posts an order. The backend resolves the store by
  its shop domain and applies the plan's monthly-order cap. It records the order;
  for every digital line it issues a download link and hands out at most one free
  license key. It then bumps the store's order counter and writes an audit log.
- **Download gate.** A customer presents a link's uuid. The link must exist, must
  not be expired and must be under the product's per-link download limit. The
  gate then counts the download and lists the product's files.
- **Catalogue endpoints.** Products are created under the plan's product cap.
  Files are uploaded under the plan's storage limit, which only warns. License
  keys are added to a product's pool. Each endpoint keeps the store's usage
  counters.
- **Store endpoints.** Onboarding is a get-or-create keyed by the shop domain,
  with the lowest-id active plan as default. There is also a plan change, a
  cancellation, and two read-only views of the acting store.
- **Catalogue import.** A management command creates one product row per shop
  variant not yet known, at most ten per run.

The Dafny project models the database as a value, `Schema.Db`, holding one
auto-increment table per model (`Tables.Table`). Download links are a map keyed
by uuid, and the audit log is a sequence. Each endpoint is a pure function from
the old database to the new one plus a status: `Webhooks.Webhook`,
`Downloads.Download`, `ProductViews.CreateProduct`, `StoreViews.Onboard` and so
on. Each endpoint also has an imperative method, which updates the fields of a
`Schema.Database` object in place in the order the handler does. The method's
`ensures` ties the new state to that function. Each loop of the source is a
`while` loop with its invariants:
- the line loop of the webhook;
- the product and variant loops of the import.

The lemmas prove several kinds of property:
- What each endpoint promises: which status it gives, when nothing changes, and
  exactly which rows and counters move.
- That every endpoint keeps the database invariant `Schema.Consistent`. It
  covers foreign keys, UNIQUE columns, at most one key and one link per order
  item, assigned keys flagged, and the product and order counters non-negative.
  Storage is kept non-negative by a separate predicate, and only for uploads of
  non-negative size: the source charges whatever `file_size_bytes` says.
- Properties over runs of requests: the order and product caps admit exactly
  `cap - count` requests, a fresh link serves exactly `max_downloads_per_link`
  downloads, onboarding and import are idempotent, and create-then-delete
  restores the tables.

Inputs the code takes from its environment are parameters:
- the acting store, which the code takes to be the first store row (`me`);
- the current time, as integer seconds;
- the fresh uuid4 tokens, one per line item, distinct and unused;
- the shop's product list and the HTTP status of its fetch.

## Model

| member | source | states |
|---|---|---|
| PlanModels.NewPlan | apps/plans/models.py:5-13 | caps are optional (None = no cap); `is_active` defaults to true |
| PlanModels.StorageLimitBytes | apps/products/views.py:65 | a limit exists iff there is a plan whose GB column is non-NULL and non-zero; it is then GB × 1024^3 bytes |
| StoreModels.NewStore | apps/stores/models.py:4-17 | a new store is active, has no subscription status, and all three counters start at 0 |
| StoreModels.FindByDomain | apps/webhooks/views.py:19 | finds a store carrying exactly that domain; a missing domain finds nothing; None only when no row has the domain |
| StoreModels.FindUnique | apps/stores/models.py:5 | with unique domains the lookup of a store's domain returns that store and only it carries the domain |
| ProductModels.NewProduct | apps/products/models.py:4-11 | the saved row keeps the draft's ids and name; defaults are is_digital true, 5 downloads per link and 72 hours |
| ProductModels.Label | apps/products/models.py:31-32 | the display name when it is non-empty, else the file name |
| ProductModels.NewLicenseKey | apps/products/models.py:34-37 | a new key belongs to its product and starts unassigned by default |
| ProductModels.UniqueTriples | apps/products/models.py:7-16 | unique variant ids imply the (store, product id, variant id) triple is unique for every row with a variant id |
| OrderModels.NewDownloadLink | apps/orders/models.py:25-30 | a new link belongs to its item, has its expiry, and its download count starts at 0 |
| Schema.PlanOf | apps/stores/models.py:9 | the store's plan when its nullable reference names an existing plan, otherwise none |
| Webhooks.ShopDomain | apps/webhooks/views.py:18 | the header's domain when it is non-empty, otherwise the payload's `shop_domain` |
| Webhooks.ProductFor | apps/webhooks/views.py:46 | the lowest-key product of the same store with both the line's product and variant ids, or none when no product matches |
| Webhooks.FreeKey | apps/webhooks/views.py:58 | the lowest-key unassigned key of the product, or none exactly when every key of the product is assigned |
| Webhooks.FulfilLine | apps/webhooks/views.py:45-63 | a non-digital or unmatched line changes nothing; any line touches only items, links, keys and assignments, with at most its own new link |
| Webhooks.Webhook | apps/webhooks/views.py:15-83 | unknown domain: 404 and exactly one error row with no store; cap reached: 403 and exactly one skipped row; otherwise 200 and the accepted-order path |
| Webhooks.AcceptOrder | apps/webhooks/views.py:41-83 | exactly one order; the store's order counter +1 whether or not a line is digital; plans, products and files unchanged; the two outcome rows appended |
| Webhooks.OutcomeLogs | apps/webhooks/views.py:68-82 | exactly two rows, both naming the store: the order outcome, then the email row |
| Webhooks.AnyDigitalIffSomeDigitalLine | apps/webhooks/views.py:44-63 | the `digital_fulfilled` flag is set iff at least one line is digital |
| Webhooks.FulfilLinesCounts | apps/webhooks/views.py:45-63 | one order item and one new link per digital line, and at most one key assignment per item, whatever the quantities |
| Webhooks.FulfilLinesRecords | apps/webhooks/views.py:45-62 | existing rows stay; keys only go from free to assigned; each new item is a digital product of this store; each new link has count 0 and expiry now + hours × 3600; each new assignment hands a new item a key of its product that was free and is now flagged |
| Webhooks.WebhookKeepsConsistent | apps/webhooks/views.py:15-83 | every path of the webhook keeps the database invariant: no key assigned twice, at most one link per item, and every reference valid |
| Webhooks.WebhookFulfilment | apps/webhooks/views.py:41-83 | on 200: one more order, one item and one link per digital line, two more log rows, and the outcome row says `fulfilled` iff an item was created |
| Webhooks.FulfilLineAddsLine | apps/webhooks/views.py:46-62 | a digital line writes exactly one item (its product and quantity, default 1), one link keyed by the fresh token with count 0 and expiry now + hours × 3600, and the first free key of the product if there is one; no other table changes |
| Webhooks.QuotaStatuses | apps/webhooks/views.py:31 | the i-th answer is 200 while count + i is below the cap and 403 from then on |
| Webhooks.OrderQuotaAdmitsExactlyCap | apps/webhooks/views.py:29-39 | in a run of orders for one capped store, exactly the first cap − count are accepted and every later one is refused; a store already at or above its cap is refused every time |
| Webhooks.OrderQuotaCounts | apps/webhooks/views.py:64-66 | after such a run the counter and the Order sequence advance by the number admitted: min(n, cap − count), or none for a store at or above its cap |
| Webhooks.QuotaStep | apps/webhooks/views.py:29-43 | one webhook of the run: 200 and counter +1 and one order below the cap, 403 and nothing counted at it |
| Webhooks.WebhookStoreStep | apps/webhooks/views.py:29-66 | a webhook for a known store keeps plans, store keys, domains and plan references; the counter and the order sequence advance iff the order is accepted |
| Webhooks.WebhookAsDeclared | apps/webhooks/models.py:12 | against the declared NOT NULL store column the unknown-domain branch fails (500) with nothing written |
| Webhooks.UnknownShopIsNotLogged | apps/webhooks/views.py:20-28 | for an order from an unknown shop the declared schema leaves no log row and answers 500, where the handler intends 404 and one error row |
| Webhooks.FulfilLineInPlace | apps/webhooks/views.py:46-63 | one loop pass updates the tables exactly as `FulfilLine` and returns whether the line was digital |
| Webhooks.AddItemInPlace | apps/webhooks/views.py:48-56 | inserts the order item and the link under the fresh token, keyed to the new item |
| Webhooks.AssignKeyInPlace | apps/webhooks/views.py:60-62 | inserts the assignment and flags the key as assigned |
| Webhooks.CloseOrder | apps/webhooks/views.py:64-82 | bumps the month's counter and appends the two outcome rows |
| Webhooks.ShopifyOrderCreate | apps/webhooks/views.py:15-83 | the in-place handler with its line loop leaves exactly the database and status of `Webhook` |
| Downloads.Entry | apps/downloads/views.py:30-34 | an entry carries the file's name and path, and its label as the display name |
| Downloads.Listing | apps/downloads/views.py:27-36 | one entry per file of the product, in key order |
| Downloads.ListingCoversFiles | apps/downloads/views.py:27-36 | every file of the product has an entry, and every entry comes from a file of the product |
| Downloads.ListingSize | apps/downloads/views.py:27-36 | the list has exactly as many entries as the product has files |
| Downloads.Download | apps/downloads/views.py:14-40 | unknown uuid 404, then expired (strict <) 410, then count ≥ limit 403, each changing nothing; otherwise 200 with only the link's count +1, the product's files and the expiry |
| Downloads.DownloadEffect | apps/downloads/views.py:38-39 | a download changes nothing or rewrites exactly one link's counter |
| Downloads.DownloadKeepsConsistent | apps/downloads/views.py:14-40 | a download keeps the database invariant |
| Downloads.ExactlyMaxDownloads | apps/downloads/views.py:22-25 | before expiry the i-th request succeeds iff count + i < limit, and the counter ends at max(c, min(c + n, limit)); the limit is read from the product each time |
| Downloads.FreshLinkAllowsExactlyLimit | apps/downloads/views.py:22-39 | from count 0, limit + 1 requests give exactly limit successes and then a refusal |
| Downloads.ExpiryBeforeLimit | apps/downloads/views.py:19-20 | an expired link gets 410 and changes nothing, whatever its counter |
| Downloads.CustomerDownload | apps/downloads/views.py:14-40 | the in-place handler leaves exactly the database, status, files and expiry of `Download` |
| ProductViews.CreateProduct | apps/products/views.py:23-33 | 201 iff there is a store, the variant id is not taken and the cap is not reached; otherwise 403 with nothing saved; on 201 only the product row and the counter +1 change |
| ProductViews.CreateProductKeepsConsistent | apps/products/views.py:44-48 | product create keeps the invariant, unique variant ids included |
| ProductViews.ProductCapAdmitsExactlyCap | apps/products/views.py:27-32 | in a run of creates for a capped store the i-th succeeds iff count + i < cap, a store at or above its cap being refused every time; the counter and the product sequence advance by the number admitted; stated for runs of drafts without a variant id, so no create clashes with another |
| ProductViews.Cascade | apps/products/views.py:38 | deleting a product leaves plans, stores, orders and logs unchanged and removes exactly that product row |
| ProductViews.CascadeDeletesDependants | apps/products/models.py:22-35 | the cascade removes exactly the product's files, keys and items, the links of those items, and the assignments of those items or keys; survivors unchanged |
| ProductViews.CascadeKeepsConsistent | apps/orders/models.py:16-38 | the cascade leaves no dangling reference and keeps the invariant |
| ProductViews.CascadeOfUnused | apps/products/views.py:38 | deleting a product no file, key or item references removes the product row alone |
| ProductViews.Decremented | apps/products/views.py:39-41 | the counter drops by one only when it is positive, and it never goes below zero |
| ProductViews.DeleteProduct | apps/products/views.py:35-42 | 204 iff the product belongs to the acting store, with the cascade and the guarded decrement; otherwise 404 and nothing changes |
| ProductViews.DeleteProductKeepsConsistent | apps/products/views.py:35-42 | product delete keeps the invariant |
| ProductViews.DeleteProductKeepsCounterNonNegative | apps/products/views.py:39-41 | no product counter goes below zero |
| ProductViews.CreateThenDeleteProduct | apps/products/views.py:23-42 | creating a product and deleting it again restores every table; only the product sequence has moved on |
| ProductViews.Warning | apps/products/views.py:66-68 | the warning is present, with the fixed text, exactly when used + size exceeds an existing limit |
| ProductViews.CreateFile | apps/products/views.py:60-79 | no store: 500; missing size: 400; unknown product: 500, writing nothing; else the file is saved, the acting store is charged the full size and the warning never blocks |
| ProductViews.CreateFileKeepsConsistent | apps/products/views.py:60-79 | file create keeps the invariant |
| ProductViews.CreateFileKeepsStorageNonNegative | apps/products/views.py:70 | uploads of non-negative size keep every storage counter non-negative |
| ProductViews.Refunded | apps/products/views.py:86-88 | the size is subtracted only when the counter covers it; otherwise the counter is left as it is, not clamped |
| ProductViews.DeleteFile | apps/products/views.py:81-89 | a file of another product is 404 with nothing changed; with no store the row is deleted and the refund crashes (500); else 204 with the row gone and the guarded refund |
| ProductViews.DeleteFileKeepsConsistent | apps/products/views.py:81-89 | file delete keeps the invariant |
| ProductViews.DeleteFileKeepsStorageNonNegative | apps/products/views.py:86-88 | a file delete never drives a storage counter below zero, whatever the file's size |
| ProductViews.CreateThenDeleteFile | apps/products/views.py:60-89 | uploading a file and deleting it restores the file rows and the stores |
| ProductViews.CreateLicenseKey | apps/products/views.py:111-114 | an unknown product is 500 with nothing changed; otherwise only one key row is added to the pool and no counter moves |
| ProductViews.CreateLicenseKeyKeepsConsistent | apps/products/views.py:111-114 | adding a key keeps the invariant |
| ProductViews.ProductCreate | apps/products/views.py:23-48 | the in-place handler leaves exactly the database and status of `CreateProduct` |
| ProductViews.ProductDestroy | apps/products/views.py:35-42 | the in-place handler leaves exactly the database and status of `DeleteProduct` |
| ProductViews.DeleteCascade | apps/products/views.py:38 | the in-place cascade leaves exactly the tables of `Cascade` |
| ProductViews.FileCreate | apps/products/views.py:60-79 | the in-place handler leaves exactly the database, status and warning of `CreateFile` |
| ProductViews.FileDestroy | apps/products/views.py:81-89 | the in-place handler leaves exactly the database and status of `DeleteFile` |
| ProductViews.LicenseKeyCreate | apps/products/views.py:111-114 | the in-place handler leaves exactly the database and status of `CreateLicenseKey` |
| StoreViews.DefaultPlan | apps/stores/views.py:66 | the lowest-id active plan, or none exactly when no plan is active |
| StoreViews.Reconnected | apps/stores/views.py:76-82 | token replaced, email replaced only by a non-empty one, store reactivated; plan, status, domain and counters kept |
| StoreViews.Onboard | apps/stores/views.py:60-84 | 400 iff domain or token missing or empty, changing nothing; 201 iff the domain is new, inserting exactly one store on the default plan; else 200 updating that store alone |
| StoreViews.OnboardKeepsConsistent | apps/stores/views.py:60-84 | onboarding keeps the invariant, unique domains included |
| StoreViews.OnboardFindsStore | apps/stores/views.py:67-84 | after success exactly one store carries the domain, the one answered, and looking the domain up finds it |
| StoreViews.OnboardIdempotent | apps/stores/views.py:67-82 | onboarding twice with the same request leaves the database as the first call did, answers with the same store, and the second answer is 200 |
| StoreViews.Subscribe | apps/stores/views.py:21-37 | no store: 404; a missing or zero `plan_id`: 400; an unknown plan: 404, all unchanged; else only the plan and the "active" status change |
| StoreViews.CancelSubscription | apps/stores/views.py:39-47 | no store: 404 unchanged; else only the status becomes "canceled" and the plan stays |
| StoreViews.SubscribeKeepsConsistent | apps/stores/views.py:21-37 | a plan change keeps the invariant |
| StoreViews.CancelKeepsConsistent | apps/stores/views.py:39-47 | cancelling keeps the invariant |
| StoreViews.SubscribeThenCancel | apps/stores/views.py:21-47 | subscribe then cancel leaves the store on the new plan, "canceled", every other field and store as before |
| StoreViews.CurrentStore | apps/stores/views.py:13-19 | 404 iff there is no store; otherwise 200 with the acting store's row (retrieve view: apps/stores/views.py:50-55) |
| StoreViews.StoreOnboarding | apps/stores/views.py:60-84 | the in-place get-or-create and field updates leave exactly the database, status and store of `Onboard` |
| StoreViews.SubscriptionChange | apps/stores/views.py:21-37 | the in-place handler leaves exactly the database and status of `Subscribe` |
| StoreViews.SubscriptionCancel | apps/stores/views.py:39-47 | the in-place handler leaves exactly the database and status of `CancelSubscription` |
| ImportProducts.VariantCandidates | apps/products/management/commands/import_shopify_products.py:28-31 | one candidate per variant in response order, with the product's id and title |
| ImportProducts.ImportedProduct | apps/products/management/commands/import_shopify_products.py:35-40 | the row carries the store, product id, variant id and the title as name; other fields take the model defaults |
| ImportProducts.Import | apps/products/management/commands/import_shopify_products.py:9-46 | no store or a non-200 fetch changes nothing; otherwise only the product table changes, as the loops leave it |
| ImportProducts.ImportCounts | apps/products/management/commands/import_shopify_products.py:41-45 | a run creates at most 10 rows, and the sequence moves by exactly the rows created |
| ImportProducts.ImportKeepsRows | apps/products/management/commands/import_shopify_products.py:33-40 | existing rows stay; every new row sits above the old sequence and is the import row of one candidate |
| ImportProducts.ImportKeepsVariantsUnique | apps/products/management/commands/import_shopify_products.py:35-40 | variant ids stay unique: the save that would repeat one is the one that raises |
| ImportProducts.ImportCoversAll | apps/products/management/commands/import_shopify_products.py:27-45 | a run below the cap with no failed save leaves every candidate's triple present |
| ImportProducts.ImportSettled | apps/products/management/commands/import_shopify_products.py:32-34 | when every triple already exists the run creates nothing and counts nothing |
| ImportProducts.ImportBounded | apps/products/management/commands/import_shopify_products.py:9-46 | at most 10 new rows, all for the acting store with fetched ids and titles; no existing row changes; no store or a failed fetch leaves the database as it was |
| ImportProducts.ImportKeepsConsistent | apps/products/management/commands/import_shopify_products.py:35-41 | the import keeps the invariant; it neither checks the product cap nor moves the counter |
| ImportProducts.ImportTwice | apps/products/management/commands/import_shopify_products.py:32-34 | after a run that finished below the cap, a second run over the same fetch creates nothing |
| ImportProducts.ImportShopifyProducts | apps/products/management/commands/import_shopify_products.py:9-46 | the in-place command with its outer loop leaves exactly the database and outcome of `Import` |
| ImportProducts.ImportVariants | apps/products/management/commands/import_shopify_products.py:30-43 | the inner loop over one product's variants either raises as the run would or leaves the table and counter the run continues from |

Behaviour a reader might not expect, which the model follows:

- **Download expiry** is strict: apps/downloads/views.py:19 tests
  `expires_at < now`, so a link is still live at the instant of its expiry.
- **Decrements are guarded, not clamped.** The product counter skips the decrement
  at 0. The storage counter is left unchanged, not clamped to zero, when it is
  below the file's size.
- **Product-create failures.** Every failure of product create, a clashing variant
  id and a missing store included, becomes 403 through the view's catch-all. None
  of them is a 400.
- **File-create failures.** A file upload with no `file_size_bytes` fails
  validation with 400 before any counter moves; the `0` default on
  apps/products/views.py:64 is never charged. An upload for an unknown product is
  an unhandled lookup error (500), not a 404.
- **Import of a taken variant id.** An import candidate whose variant id another
  store's or product's row already holds passes the triple check. Its save then
  violates the UNIQUE column: the command stops there and keeps the rows saved
  before it (`ImportProducts.Outcome.Aborted`).

## Findings

| source | as written | input that shows it | evidently intended | confidence | as-written member | corrected member |
|---|---|---|---|---|---|---|
| apps/webhooks/views.py:21-28 with apps/webhooks/models.py:12 | the unknown-domain branch creates a log row with `store=None`, but the log's store column is declared NOT NULL, so the insert raises and the request fails with 500 and no log row | an order for `unknown.myshopify.com` against an empty database | answer 404 and keep one `order_create`/`error` row naming no store | high that the NOT NULL insert raises; not executed | Webhooks.WebhookAsDeclared, Webhooks.UnknownShopIsNotLogged | Webhooks.Webhook (the log's store is optional in Schema.WebhookLog) |

## Left out

- HTTP and REST-framework plumbing is not modelled:
  - routing, authentication and permission classes;
  - serializer output (the two store serializers' field lists), which a response
    is reduced to a status enum plus the data the view computes;
  - response messages;
  - the plan list view and the OAuth views.
- Serializer validation beyond the fields the logic reads is not modelled: a
  missing file name or path, an over-long string, a non-integer `plan_id` or file
  size (a 500 in the source). Drafts carry typed fields.
- The list endpoints, product update (PUT/PATCH) and license-key delete have no
  counter logic and are not modelled. The file signed-URL stub
  (apps/products/views.py:91-99) and the fake CDN and download URLs are not
  modelled either; a listing entry keeps the file path the URL is built from.
- `uuid.uuid4()`, `timezone.now()` and the `requests.get` fetch are inputs:
  - tokens are assumed fresh and distinct;
  - time is integer seconds;
  - the fetch is its status and parsed product list.

  The `limit=10` query, the shop URL and the access token are not modelled.
- The acting store is the explicit parameter `me`, the first store row in the
  source.
  - The file views model its absence: 500 on create, delete-then-500 on delete.
  - The model does not check that `me` is the lowest-key store.
- Payloads that crash the handlers are not modelled: a webhook without `id` or
  `email` (a NOT NULL insert, 500), a `quantity` of JSON null, an import product
  without `id`, `title` or variant `id` (a KeyError). The event and fetch
  datatypes carry these fields as present.
- The file listing of a download is returned in key order. The source's
  `File.objects.filter(product=product)` has no `order_by` and `File` has no
  default ordering, so the database promises no order; the order is the model's.
- Integer widths are not modelled: counters and ids are unbounded integers, where
  the source stores 32- and 64-bit columns.
- Timestamps (`created_at`, `updated_at`, `assigned_at`, `upload_date`,
  `last_order_count_reset_at`, `current_billing_period_ends`), the external
  subscription id, prices and `allow_custom_email_template` are not modelled; no
  modelled logic reads them.
- Concurrency is not modelled. Every request runs alone: the check-then-act
  races on counters and key selection are outside the model.
- Transactions are not modelled. Each write takes effect immediately, and a
  request that fails part-way keeps the writes before the failure (the file
  delete and the import abort).
- ProductViews.DeleteProduct: the model, like the source, does not refund the
  storage of the files the cascade deletes. The storage counter keeps counting
  them.
- ProductViews.CreateFile: neither the model nor the source checks that the
  product belongs to the acting store; the acting store is charged either way.
- Deleting a store, an order or a plan has no endpoint here. Those cascades, and
  the plan reference set to NULL, appear only as `Schema.PlanOf` treating a
  dangling plan reference as no plan.
