/**
 * The merchant's catalogue endpoints: products under the product cap, files under the
 * storage warning, and license keys, each keeping the acting store's usage counters.
 * The acting store ("me", the first store row) is a parameter.
 */
module ProductViews {
  import opened Tables
  import opened PlanModels
  import opened StoreModels
  import opened ProductModels
  import opened OrderModels
  import opened Schema

  const StorageWarning: string := "Storage limit exceeded for your plan."

  // ---------------------------------------------------------------------------
  // Products
  // ---------------------------------------------------------------------------

  /** The serializer's UNIQUE validator on the variant id; a NULL variant id never clashes. */
  predicate VariantClash(products: Table<Product>, d: ProductDraft) {
    d.shopifyVariantId.Some? && VariantTaken(products, d.shopifyVariantId.value)
  }

  /** The product cap of store `sid` refuses one more product. */
  predicate AtProductCap(db: Db, sid: nat)
    requires sid in db.stores.rows
  {
    ProductLimitReached(PlanOf(db.plans, db.stores.rows[sid]), db.stores.rows[sid].productCount)
  }

  /**
   * `ProductViewSet.create`: every failure (a clashing variant id, no store, the cap)
   * is turned into 403 with nothing saved; otherwise the product is saved under the
   * store and the store's product counter rises by one.
   */
  function CreateProduct(db: Db, me: Option<nat>, d: ProductDraft): (r: Response)
    requires me.Some? ==> me.value in db.stores.rows
    ensures r.status in {Created, Forbidden}
    ensures r.status == Created <==> !VariantClash(db.products, d) && me.Some? && !AtProductCap(db, me.value)
    ensures r.status == Forbidden ==> r.db == db
    ensures r.status == Created ==>
      var s := db.stores.rows[me.value];
      r.db == WithStore(InsertProduct(db, NewProduct(me.value, d)), me.value, s.(productCount := s.productCount + 1))
  {
    if VariantClash(db.products, d) || me.None? || AtProductCap(db, me.value) then Response(db, Forbidden)
    else
      var s := db.stores.rows[me.value];
      Response(WithStore(InsertProduct(db, NewProduct(me.value, d)), me.value, s.(productCount := s.productCount + 1)),
               Created)
  }

  /** The rows a product delete removes: the product's dependants, directly or through its items or keys. */
  predicate ItemOf(db: Db, pid: nat, item: nat) {
    item in db.items.rows && db.items.rows[item].product == pid
  }

  predicate KeyOf(db: Db, pid: nat, key: nat) {
    key in db.keys.rows && db.keys.rows[key].product == pid
  }

  /**
   * `instance.delete()` on a product: ON DELETE CASCADE removes its files, keys and
   * order items, the links and assignments of those items, and the assignments of
   * those keys. Orders themselves stay.
   */
  function Cascade(db: Db, pid: nat): (r: Db)
    ensures r.plans == db.plans && r.stores == db.stores && r.orders == db.orders && r.logs == db.logs
    ensures r.products == db.products.Remove(pid)
  {
    db.(products := db.products.Remove(pid),
        files := FilesWithout(db.files, pid),
        keys := KeysWithout(db.keys, pid),
        items := ItemsWithout(db.items, pid),
        links := LinksWithout(db.links, db.items, pid),
        assignments := AssignmentsWithout(db.assignments, db.items, db.keys, pid))
  }

  /**
   * Exactly the dependants go: a file, key or item survives unless it belongs to the
   * product, a link unless its item does, an assignment unless its item or its key does;
   * every surviving row is unchanged.
   */
  lemma CascadeDeletesDependants(db: Db, pid: nat)
    ensures var r := Cascade(db, pid);
      (forall k :: k in r.files.rows <==> k in db.files.rows && db.files.rows[k].product != pid)
      && (forall k :: k in r.keys.rows <==> k in db.keys.rows && db.keys.rows[k].product != pid)
      && (forall k :: k in r.items.rows <==> k in db.items.rows && db.items.rows[k].product != pid)
      && (forall u :: u in r.links <==> u in db.links && !ItemOf(db, pid, db.links[u].item))
      && (forall a :: a in r.assignments.rows <==>
            a in db.assignments.rows
            && !ItemOf(db, pid, db.assignments.rows[a].item) && !KeyOf(db, pid, db.assignments.rows[a].key))
      && (forall k :: k in r.files.rows ==> r.files.rows[k] == db.files.rows[k])
      && (forall k :: k in r.keys.rows ==> r.keys.rows[k] == db.keys.rows[k])
      && (forall k :: k in r.items.rows ==> r.items.rows[k] == db.items.rows[k])
      && (forall u :: u in r.links ==> r.links[u] == db.links[u])
      && (forall a :: a in r.assignments.rows ==> r.assignments.rows[a] == db.assignments.rows[a])
      && r.files.next == db.files.next && r.keys.next == db.keys.next
      && r.items.next == db.items.next && r.assignments.next == db.assignments.next
  {
  }

  /** The cascade's DELETE on each dependent table, given the tables it joins through. */
  function FilesWithout(files: Table<File>, pid: nat): Table<File> {
    files.DeleteWhere((f: File) => f.product == pid)
  }

  function KeysWithout(keys: Table<LicenseKey>, pid: nat): Table<LicenseKey> {
    keys.DeleteWhere((k: LicenseKey) => k.product == pid)
  }

  function ItemsWithout(items: Table<OrderItem>, pid: nat): Table<OrderItem> {
    items.DeleteWhere((it: OrderItem) => it.product == pid)
  }

  function LinksWithout(links: map<Uuid, DownloadLink>, items: Table<OrderItem>, pid: nat): map<Uuid, DownloadLink> {
    map u | u in links && !(links[u].item in items.rows && items.rows[links[u].item].product == pid) :: links[u]
  }

  function AssignmentsWithout(assignments: Table<AssignedLicenseKey>, items: Table<OrderItem>, keys: Table<LicenseKey>, pid: nat)
    : Table<AssignedLicenseKey>
  {
    assignments.DeleteWhere((a: AssignedLicenseKey) =>
      (a.item in items.rows && items.rows[a.item].product == pid) || (a.key in keys.rows && keys.rows[a.key].product == pid))
  }

  /** The product counter after a delete: one less, but never below zero. */
  function Decremented(count: int): (c: int)
    ensures count > 0 ==> c == count - 1
    ensures count <= 0 ==> c == count
    ensures count >= 0 ==> c >= 0
  {
    if count > 0 then count - 1 else count
  }

  /**
   * `ProductViewSet.destroy`: only products of the acting store are visible (404
   * otherwise); the product is deleted with its dependants, and the owning store's
   * product counter drops by one unless it is already zero. Storage is not refunded.
   */
  function DeleteProduct(db: Db, me: Option<nat>, pid: nat): (r: Response)
    requires ProductsReferStores(db.products, db.stores)
    ensures r.status in {NoContent, NotFound}
    ensures r.status == NoContent <==> me.Some? && pid in db.products.rows && db.products.rows[pid].store == me.value
    ensures r.status == NotFound ==> r.db == db
    ensures r.status == NoContent ==>
      var s := db.stores.rows[me.value];
      r.db == WithStore(Cascade(db, pid), me.value, s.(productCount := Decremented(s.productCount)))
  {
    if me.None? || pid !in db.products.rows || db.products.rows[pid].store != me.value then Response(db, NotFound)
    else
      var s := db.stores.rows[me.value];
      Response(WithStore(Cascade(db, pid), me.value, s.(productCount := Decremented(s.productCount))), NoContent)
  }

  // ---------------------------------------------------------------------------
  // Files
  // ---------------------------------------------------------------------------

  /** The request's fields of a file upload; `sizeBytes` is `None` when the field is absent. */
  datatype FileDraft = FileDraft(
    fileName: string,
    filePath: string,
    fileType: Option<string>,
    sizeBytes: Option<int>,
    displayName: Option<string>)

  /** A file upload's answer: a status and, on success, an optional warning. */
  datatype FileResponse = FileResponse(db: Db, status: Status, warning: Option<string>)

  /** Whether adding `size` bytes to store `s` exceeds its plan's storage limit (0 or NULL GB: none). */
  predicate OverStorage(plans: Table<Plan>, s: Store, size: int) {
    var limit := StorageLimitBytes(PlanOf(plans, s));
    limit.Some? && s.storageUsedBytes + size > limit.value
  }

  /** The upload's warning: present, with the fixed text, exactly when the upload goes over the limit. */
  function Warning(plans: Table<Plan>, s: Store, size: int): (w: Option<string>)
    ensures w.Some? <==> OverStorage(plans, s, size)
    ensures w.Some? ==> w.value == StorageWarning
  {
    if OverStorage(plans, s, size) then Some(StorageWarning) else None
  }

  /**
   * `ProductFileViewSet.create`: with no store the plan lookup crashes (500); a missing
   * size fails validation (400); an unknown product fails the lookup (500); otherwise
   * the file is saved, the acting store is charged the whole size, and the response
   * carries the storage warning exactly when the upload takes the store over its plan's
   * limit. The warning never blocks. The product need not belong to the acting store.
   */
  function CreateFile(db: Db, me: Option<nat>, pid: nat, d: FileDraft): (r: FileResponse)
    requires me.Some? ==> me.value in db.stores.rows
    ensures r.status in {Created, BadRequest, ServerError}
    ensures r.status != Created ==> r.db == db && r.warning.None?
    ensures me.None? ==> r.status == ServerError
    ensures me.Some? && d.sizeBytes.None? ==> r.status == BadRequest
    ensures me.Some? && d.sizeBytes.Some? && pid !in db.products.rows ==> r.status == ServerError
    ensures r.status == Created <==> me.Some? && d.sizeBytes.Some? && pid in db.products.rows
    ensures r.status == Created ==>
      var size := d.sizeBytes.value;
      var s := db.stores.rows[me.value];
      r.db == WithStore(InsertFile(db, File(pid, d.fileName, d.filePath, d.fileType, size, d.displayName)),
                        me.value, s.(storageUsedBytes := s.storageUsedBytes + size))
      && r.warning == Warning(db.plans, s, size)
  {
    if me.None? then FileResponse(db, ServerError, None)
    else if d.sizeBytes.None? then FileResponse(db, BadRequest, None)
    else if pid !in db.products.rows then FileResponse(db, ServerError, None)
    else
      var s := db.stores.rows[me.value];
      var size := d.sizeBytes.value;
      FileResponse(WithStore(InsertFile(db, File(pid, d.fileName, d.filePath, d.fileType, size, d.displayName)),
                             me.value, s.(storageUsedBytes := s.storageUsedBytes + size)),
                   Created, Warning(db.plans, s, size))
  }

  /** The storage counter after deleting `size` bytes: subtracted only when it does not go negative. */
  function Refunded(used: int, size: int): (u: int)
    ensures used >= size ==> u == used - size
    ensures used < size ==> u == used
    ensures used >= 0 ==> u >= 0
  {
    if used >= size then used - size else used
  }

  /** The file is one of the product's in the URL, so the viewset can see it. */
  predicate FileVisible(db: Db, pid: nat, fid: nat) {
    fid in db.files.rows && db.files.rows[fid].product == pid
  }

  /**
   * `ProductFileViewSet.destroy`: only files of the product in the URL are visible (404
   * otherwise); the file row is deleted and its size is refunded to the acting store
   * when the counter covers it. With no store the refund crashes (500) after the row
   * is already gone.
   */
  function DeleteFile(db: Db, me: Option<nat>, pid: nat, fid: nat): (r: Response)
    requires me.Some? ==> me.value in db.stores.rows
    ensures r.status in {NoContent, NotFound, ServerError}
    ensures r.status == NotFound <==> !FileVisible(db, pid, fid)
    ensures r.status == NotFound ==> r.db == db
    ensures r.status == ServerError <==> FileVisible(db, pid, fid) && me.None?
    ensures r.status == ServerError ==> r.db == db.(files := db.files.Remove(fid))
    ensures r.status == NoContent ==>
      var s := db.stores.rows[me.value];
      r.db == WithStore(db.(files := db.files.Remove(fid)), me.value,
                        s.(storageUsedBytes := Refunded(s.storageUsedBytes, db.files.rows[fid].sizeBytes)))
  {
    if !FileVisible(db, pid, fid) then Response(db, NotFound)
    else if me.None? then Response(db.(files := db.files.Remove(fid)), ServerError)
    else
      var s := db.stores.rows[me.value];
      Response(WithStore(db.(files := db.files.Remove(fid)), me.value,
                         s.(storageUsedBytes := Refunded(s.storageUsedBytes, db.files.rows[fid].sizeBytes))),
               NoContent)
  }

  // ---------------------------------------------------------------------------
  // License keys
  // ---------------------------------------------------------------------------

  /**
   * `ProductLicenseKeyViewSet.perform_create`: an unknown product fails the lookup
   * (500); otherwise the key is added to the product's pool. No counter moves.
   */
  function CreateLicenseKey(db: Db, pid: nat, key: string, isAssigned: Option<bool>): (r: Response)
    ensures r.status in {Created, ServerError}
    ensures r.status == Created <==> pid in db.products.rows
    ensures r.status == ServerError ==> r.db == db
    ensures r.status == Created ==>
      r.db == db.(keys := db.keys.Insert(NewLicenseKey(pid, key, isAssigned)))
  {
    if pid !in db.products.rows then Response(db, ServerError)
    else Response(db.(keys := db.keys.Insert(NewLicenseKey(pid, key, isAssigned))), Created)
  }

  // ---------------------------------------------------------------------------
  // Step functions
  // ---------------------------------------------------------------------------

  /** INSERT of a product row. */
  function InsertProduct(db: Db, p: Product): (r: Db)
    ensures r == db.(products := db.products.Insert(p))
  {
    db.(products := db.products.Insert(p))
  }

  /** INSERT of a file row. */
  function InsertFile(db: Db, f: File): (r: Db)
    ensures r == db.(files := db.files.Insert(f))
  {
    db.(files := db.files.Insert(f))
  }

  // ---------------------------------------------------------------------------
  // Invariants
  // ---------------------------------------------------------------------------

  /** Creating a product keeps the database invariant; the variant validator keeps variant ids unique. */
  lemma CreateProductKeepsConsistent(db: Db, me: Option<nat>, d: ProductDraft)
    requires Consistent(db) && (me.Some? ==> me.value in db.stores.rows)
    ensures Consistent(CreateProduct(db, me, d).db)
  {
    var r := CreateProduct(db, me, d);
    if r.status == Created {
      var s := db.stores.rows[me.value];
      assert r.db == WithStore(InsertProduct(db, NewProduct(me.value, d)), me.value, s.(productCount := s.productCount + 1));
      InsertProductKeepsConsistent(db, NewProduct(me.value, d));
      StoreUpdateKeepsConsistent(InsertProduct(db, NewProduct(me.value, d)), me.value, s.(productCount := s.productCount + 1));
    }
  }

  /** Inserting a product of an existing store with an unused (or NULL) variant id keeps the invariant. */
  lemma InsertProductKeepsConsistent(db: Db, p: Product)
    requires Consistent(db) && p.store in db.stores.rows
    requires p.shopifyVariantId.Some? ==> !VariantTaken(db.products, p.shopifyVariantId.value)
    ensures Consistent(InsertProduct(db, p))
  {
    var r := InsertProduct(db, p);
    assert db.products.next !in db.products.rows;
    assert ProductsReferStores(r.products, r.stores);
    assert FilesReferProducts(r.files, r.products);
    assert KeysReferProducts(r.keys, r.products);
    assert ItemsReferRows(r.items, r.orders, r.products);
    assert UniqueVariants(r.products);
    assert ItemsMatch(r.items, r.orders, r.products);
  }

  /** Deleting a product keeps the database invariant: the cascade leaves no dangling reference. */
  lemma DeleteProductKeepsConsistent(db: Db, me: Option<nat>, pid: nat)
    requires Consistent(db)
    ensures Consistent(DeleteProduct(db, me, pid).db)
  {
    if DeleteProduct(db, me, pid).status == NoContent {
      var s := db.stores.rows[me.value];
      CascadeKeepsConsistent(db, pid);
      StoreUpdateKeepsConsistent(Cascade(db, pid), me.value, s.(productCount := Decremented(s.productCount)));
    }
  }

  /** The cascade of a product delete keeps the invariant. */
  lemma CascadeKeepsConsistent(db: Db, pid: nat)
    requires Consistent(db)
    ensures Consistent(Cascade(db, pid))
  {
    CascadeReferences(db, pid);
    CascadeAssignments(db, pid);
    var r := Cascade(db, pid);
    assert TablesValid(r);
    assert UniqueColumns(r);
    assert ItemsMatchStore(r);
  }

  /** The cascade leaves no dangling foreign key. */
  lemma CascadeReferences(db: Db, pid: nat)
    requires ReferencesValid(db)
    ensures ReferencesValid(Cascade(db, pid))
  {
    var r := Cascade(db, pid);
    CascadeDeletesDependants(db, pid);
    assert ProductsReferStores(r.products, r.stores);
    assert FilesReferProducts(r.files, r.products);
    assert KeysReferProducts(r.keys, r.products);
    assert ItemsReferRows(r.items, r.orders, r.products);
    assert LinksReferItems(r.links, r.items);
    assert AssignmentsReferRows(r.assignments, r.items, r.keys);
  }

  /** Deleting rows never breaks the single-assignment rules. */
  lemma CascadeAssignments(db: Db, pid: nat)
    requires AssignmentsValid(db)
    ensures AssignmentsValid(Cascade(db, pid))
  {
    var r := Cascade(db, pid);
    CascadeDeletesDependants(db, pid);
    assert AssignedKeysFlagged(r.assignments, r.keys);
    assert AssignmentsSingle(r.assignments);
    assert LinksSingle(r.links);
  }

  /** Creating a file keeps the database invariant. */
  lemma CreateFileKeepsConsistent(db: Db, me: Option<nat>, pid: nat, d: FileDraft)
    requires Consistent(db) && (me.Some? ==> me.value in db.stores.rows)
    ensures Consistent(CreateFile(db, me, pid, d).db)
  {
    var r := CreateFile(db, me, pid, d);
    if r.status == Created {
      var s := db.stores.rows[me.value];
      var f := File(pid, d.fileName, d.filePath, d.fileType, d.sizeBytes.value, d.displayName);
      var s1 := s.(storageUsedBytes := s.storageUsedBytes + d.sizeBytes.value);
      assert r.db == WithStore(InsertFile(db, f), me.value, s1);
      InsertFileKeepsConsistent(db, f);
      StoreUpdateKeepsConsistent(InsertFile(db, f), me.value, s1);
    }
  }

  /** Inserting a file of an existing product keeps the invariant. */
  lemma InsertFileKeepsConsistent(db: Db, f: File)
    requires Consistent(db) && f.product in db.products.rows
    ensures Consistent(InsertFile(db, f))
  {
    var r := InsertFile(db, f);
    assert db.files.next !in db.files.rows;
    assert FilesReferProducts(r.files, r.products);
  }

  /** Deleting a file keeps the database invariant: nothing references a file. */
  lemma DeleteFileKeepsConsistent(db: Db, me: Option<nat>, pid: nat, fid: nat)
    requires Consistent(db) && (me.Some? ==> me.value in db.stores.rows)
    ensures Consistent(DeleteFile(db, me, pid, fid).db)
  {
    var r := DeleteFile(db, me, pid, fid);
    if r.status != NotFound {
      var db1 := db.(files := db.files.Remove(fid));
      assert FilesReferProducts(db1.files, db1.products);
      if r.status == NoContent {
        var s := db.stores.rows[me.value];
        StoreUpdateKeepsConsistent(db1, me.value, s.(storageUsedBytes := Refunded(s.storageUsedBytes, db.files.rows[fid].sizeBytes)));
      }
    }
  }

  /** Creating a license key keeps the database invariant. */
  lemma CreateLicenseKeyKeepsConsistent(db: Db, pid: nat, key: string, isAssigned: Option<bool>)
    requires Consistent(db)
    ensures Consistent(CreateLicenseKey(db, pid, key, isAssigned).db)
  {
    var r := CreateLicenseKey(db, pid, key, isAssigned);
    if r.status == Created {
      assert db.keys.next !in db.keys.rows;
      assert KeysReferProducts(r.db.keys, r.db.products);
      assert AssignmentsReferRows(r.db.assignments, r.db.items, r.db.keys);
      assert AssignedKeysFlagged(r.db.assignments, r.db.keys);
    }
  }

  // ---------------------------------------------------------------------------
  // Counters
  // ---------------------------------------------------------------------------

  /** Every store's storage counter is non-negative. */
  ghost predicate StorageNonNegative(db: Db) {
    forall s :: s in db.stores.rows ==> db.stores.rows[s].storageUsedBytes >= 0
  }

  /** Uploading a file of non-negative size keeps every storage counter non-negative. */
  lemma CreateFileKeepsStorageNonNegative(db: Db, me: Option<nat>, pid: nat, d: FileDraft)
    requires StorageNonNegative(db) && (me.Some? ==> me.value in db.stores.rows)
    requires d.sizeBytes.Some? ==> d.sizeBytes.value >= 0
    ensures StorageNonNegative(CreateFile(db, me, pid, d).db)
  {
  }

  /** Deleting a file never drives a storage counter below zero, whatever the file's size. */
  lemma DeleteFileKeepsStorageNonNegative(db: Db, me: Option<nat>, pid: nat, fid: nat)
    requires StorageNonNegative(db) && (me.Some? ==> me.value in db.stores.rows)
    ensures StorageNonNegative(DeleteFile(db, me, pid, fid).db)
  {
  }

  /** Deleting a product never drives a product counter below zero. */
  lemma DeleteProductKeepsCounterNonNegative(db: Db, me: Option<nat>, pid: nat)
    requires ProductsReferStores(db.products, db.stores) && forall k :: k in db.stores.rows ==> db.stores.rows[k].productCount >= 0
    ensures var r := DeleteProduct(db, me, pid).db;
      forall k :: k in r.stores.rows ==> r.stores.rows[k].productCount >= 0
  {
  }

  /**
   * Uploading a file and deleting it again restores the file table's rows and the
   * store's storage counter (from a non-negative counter and size).
   */
  lemma CreateThenDeleteFile(db: Db, me: nat, pid: nat, d: FileDraft)
    requires me in db.stores.rows && pid in db.products.rows && d.sizeBytes.Some?
    requires db.files.Valid()
    requires db.stores.rows[me].storageUsedBytes >= 0 && d.sizeBytes.value >= 0
    ensures var r1 := CreateFile(db, Some(me), pid, d);
      var r2 := DeleteFile(r1.db, Some(me), pid, db.files.next);
      r2.status == NoContent && r2.db.files.rows == db.files.rows && r2.db.stores == db.stores
  {
    var r1 := CreateFile(db, Some(me), pid, d);
    var r2 := DeleteFile(r1.db, Some(me), pid, db.files.next);
    assert db.files.next !in db.files.rows;
    assert r2.db.files.rows == db.files.rows;
    assert r2.db.stores.rows == db.stores.rows;
  }

  /**
   * Creating a product and deleting it again restores every table except the product
   * sequence, which has moved on, provided the counter was positive or zero.
   */
  lemma CreateThenDeleteProduct(db: Db, me: nat, d: ProductDraft)
    requires ReferencesValid(db) && db.products.Valid() && me in db.stores.rows
    requires CreateProduct(db, Some(me), d).status == Created
    requires db.stores.rows[me].productCount >= 0
    ensures var r1 := CreateProduct(db, Some(me), d);
      var r2 := DeleteProduct(r1.db, Some(me), db.products.next);
      r2.status == NoContent && r2.db == db.(products := Table(db.products.rows, db.products.next + 1))
  {
    var pid := db.products.next;
    var s := db.stores.rows[me];
    var r1 := CreateProduct(db, Some(me), d);
    assert r1.db == WithStore(InsertProduct(db, NewProduct(me, d)), me, s.(productCount := s.productCount + 1));
    assert pid !in db.products.rows;
    assert FilesReferProducts(db.files, db.products) && KeysReferProducts(db.keys, db.products);
    assert ItemsReferRows(db.items, db.orders, db.products);
    CascadeOfUnused(r1.db, pid);
    InsertThenRemove(db.products, NewProduct(me, d));
    SetBack(db.stores, me, s.(productCount := s.productCount + 1));
  }

  /** The cascade of a product nothing references deletes the product row alone. */
  lemma CascadeOfUnused(db: Db, pid: nat)
    requires forall f :: f in db.files.rows ==> db.files.rows[f].product != pid
    requires forall k :: k in db.keys.rows ==> db.keys.rows[k].product != pid
    requires forall i :: i in db.items.rows ==> db.items.rows[i].product != pid
    ensures Cascade(db, pid) == db.(products := db.products.Remove(pid))
  {
    var c := Cascade(db, pid);
    CascadeDeletesDependants(db, pid);
    assert c.files.rows == db.files.rows;
    assert c.keys.rows == db.keys.rows;
    assert c.items.rows == db.items.rows;
    assert c.links == db.links;
    assert c.assignments.rows == db.assignments.rows;
  }

  /** A run of product creates by one store with NULL variant ids. */
  function RunCreates(db: Db, me: nat, drafts: seq<ProductDraft>): (r: (Db, seq<Status>))
    requires me in db.stores.rows
    ensures |r.1| == |drafts|
    decreases |drafts|
  {
    if drafts == [] then (db, [])
    else
      var first := CreateProduct(db, Some(me), drafts[0]);
      assert me in first.db.stores.rows;
      var rest := RunCreates(first.db, me, drafts[1..]);
      (rest.0, [first.status] + rest.1)
  }

  /**
   * The product cap admits exactly `cap - count` new products: the `i`-th create
   * succeeds exactly when `count + i < cap`, and the counter and the product sequence
   * advance by the number admitted (none when the store is already at or above its cap).
   * Drafts carry no variant id, so no create of the run clashes with another.
   */
  lemma {:induction false} ProductCapAdmitsExactlyCap(db: Db, me: nat, cap: int, drafts: seq<ProductDraft>)
    requires me in db.stores.rows
    requires PlanOf(db.plans, db.stores.rows[me]).Some? && PlanOf(db.plans, db.stores.rows[me]).value.maxProducts == Some(cap)
    requires forall i :: 0 <= i < |drafts| ==> drafts[i].shopifyVariantId.None?
    ensures var count := db.stores.rows[me].productCount;
      var r := RunCreates(db, me, drafts);
      (forall i :: 0 <= i < |drafts| ==> r.1[i] == (if count + i < cap then Created else Forbidden))
      && me in r.0.stores.rows
      && r.0.stores.rows[me].productCount == count + Admitted(count, cap, |drafts|)
      && r.0.products.next == db.products.next + Admitted(count, cap, |drafts|)
    decreases |drafts|
  {
    if drafts != [] {
      var count := db.stores.rows[me].productCount;
      var first := CreateProduct(db, Some(me), drafts[0]);
      assert first.db.plans == db.plans && first.db.stores.rows[me].currentPlan == db.stores.rows[me].currentPlan;
      ProductCapAdmitsExactlyCap(first.db, me, cap, drafts[1..]);
      var rest := RunCreates(first.db, me, drafts[1..]);
      forall i | 0 <= i < |drafts|
        ensures RunCreates(db, me, drafts).1[i] == if count + i < cap then Created else Forbidden
      {
        if i > 0 {
          assert RunCreates(db, me, drafts).1[i] == rest.1[i - 1];
        }
      }
    }
  }

  // ---------------------------------------------------------------------------
  // The handlers
  // ---------------------------------------------------------------------------

  /** `ProductViewSet.create` with `perform_create`, updating the tables in place. */
  method ProductCreate(db: Database, me: Option<nat>, d: ProductDraft) returns (status: Status)
    requires me.Some? ==> me.value in db.stores.rows
    modifies db
    ensures db.State() == CreateProduct(old(db.State()), me, d).db
    ensures status == CreateProduct(old(db.State()), me, d).status
  {
    if d.shopifyVariantId.Some? && VariantTaken(db.products, d.shopifyVariantId.value) {
      return Forbidden;
    }
    if me.None? {
      return Forbidden;
    }
    var store := db.stores.rows[me.value];
    var plan := PlanOf(db.plans, store);
    if plan.Some? && plan.value.maxProducts.Some? && store.productCount >= plan.value.maxProducts.value {
      return Forbidden;
    }
    db.products := db.products.Insert(NewProduct(me.value, d));
    db.stores := db.stores.Set(me.value, store.(productCount := store.productCount + 1));
    status := Created;
  }

  /** `ProductViewSet.destroy`: the cascade, then the guarded decrement. */
  method ProductDestroy(db: Database, me: Option<nat>, pid: nat) returns (status: Status)
    requires ProductsReferStores(db.products, db.stores)
    modifies db
    ensures db.State() == DeleteProduct(old(db.State()), me, pid).db
    ensures status == DeleteProduct(old(db.State()), me, pid).status
  {
    if me.None? || pid !in db.products.rows || db.products.rows[pid].store != me.value {
      return NotFound;
    }
    var store := db.stores.rows[me.value];
    DeleteCascade(db, pid);
    if store.productCount > 0 {
      db.stores := db.stores.Set(me.value, store.(productCount := store.productCount - 1));
    } else {
      db.stores := db.stores.Set(me.value, store);
    }
    status := NoContent;
  }

  /** The ON DELETE CASCADE of a product, dependants first, in place. */
  method DeleteCascade(db: Database, pid: nat)
    modifies db
    ensures db.State() == Cascade(old(db.State()), pid)
  {
    var items, keys := db.items, db.keys;
    db.links := LinksWithout(db.links, items, pid);
    db.assignments := AssignmentsWithout(db.assignments, items, keys, pid);
    db.items := ItemsWithout(items, pid);
    db.keys := KeysWithout(keys, pid);
    db.files := FilesWithout(db.files, pid);
    db.products := db.products.Remove(pid);
  }

  /** `ProductFileViewSet.create`: warning first, then the save, then the storage charge. */
  method FileCreate(db: Database, me: Option<nat>, pid: nat, d: FileDraft) returns (status: Status, warning: Option<string>)
    requires me.Some? ==> me.value in db.stores.rows
    modifies db
    ensures db.State() == CreateFile(old(db.State()), me, pid, d).db
    ensures status == CreateFile(old(db.State()), me, pid, d).status
    ensures warning == CreateFile(old(db.State()), me, pid, d).warning
  {
    if me.None? {
      return ServerError, None;
    }
    var store := db.stores.rows[me.value];
    var size := d.sizeBytes.GetOr(0);
    var limit := StorageLimitBytes(PlanOf(db.plans, store));
    warning := None;
    if limit.Some? && store.storageUsedBytes + size > limit.value {
      warning := Some(StorageWarning);
    }
    if d.sizeBytes.None? {
      return BadRequest, None;
    }
    if pid !in db.products.rows {
      return ServerError, None;
    }
    db.files := db.files.Insert(File(pid, d.fileName, d.filePath, d.fileType, size, d.displayName));
    db.stores := db.stores.Set(me.value, store.(storageUsedBytes := store.storageUsedBytes + size));
    status := Created;
  }

  /** `ProductFileViewSet.destroy`: delete, then the guarded refund. */
  method FileDestroy(db: Database, me: Option<nat>, pid: nat, fid: nat) returns (status: Status)
    requires me.Some? ==> me.value in db.stores.rows
    modifies db
    ensures db.State() == DeleteFile(old(db.State()), me, pid, fid).db
    ensures status == DeleteFile(old(db.State()), me, pid, fid).status
  {
    if fid !in db.files.rows || db.files.rows[fid].product != pid {
      return NotFound;
    }
    var size := db.files.rows[fid].sizeBytes;
    db.files := db.files.Remove(fid);
    if me.None? {
      return ServerError;
    }
    ghost var removed := db.State();
    var store := db.stores.rows[me.value];
    if store.storageUsedBytes >= size {
      db.stores := db.stores.Set(me.value, store.(storageUsedBytes := store.storageUsedBytes - size));
    } else {
      db.stores := db.stores.Set(me.value, store);
    }
    assert db.State() == WithStore(removed, me.value, store.(storageUsedBytes := Refunded(store.storageUsedBytes, size)));
    status := NoContent;
  }

  /** `ProductLicenseKeyViewSet.perform_create`. */
  method LicenseKeyCreate(db: Database, pid: nat, key: string, isAssigned: Option<bool>) returns (status: Status)
    modifies db
    ensures db.State() == CreateLicenseKey(old(db.State()), pid, key, isAssigned).db
    ensures status == CreateLicenseKey(old(db.State()), pid, key, isAssigned).status
  {
    if pid !in db.products.rows {
      return ServerError;
    }
    db.keys := db.keys.Insert(NewLicenseKey(pid, key, isAssigned));
    status := Created;
  }
}
