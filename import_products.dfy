/**
 * The catalogue import command: it fetches the acting store's products from the shop
 * and creates one product row per variant not yet known, at most ten per run. The
 * fetched product list and the response status are inputs.
 */
module ImportProducts {
  import opened Tables
  import opened StoreModels
  import opened ProductModels
  import opened Schema

  /** The run stops as soon as this many rows were created. */
  const ImportCap: nat := 10

  /** The response status the import requires of the fetch. */
  const StatusOk: int := 200

  /** A fetched shop product: its id, its title and the ids of its variants, in response order. */
  datatype ShopProduct = ShopProduct(id: int, title: string, variants: seq<int>)

  /** The fetch: the response status and, when it is 200, the parsed product list. */
  datatype Fetch = Fetch(status: int, products: seq<ShopProduct>)

  /** One (product id, title, variant id) the loops visit. */
  datatype Candidate = Candidate(productId: int, title: string, variantId: int)

  /** How the command ends: before the loop, after it, or on the save that raised. */
  datatype Outcome = NoStore | FetchFailed | Imported(count: nat) | Aborted(count: nat)

  datatype ImportResult = ImportResult(db: Db, outcome: Outcome)

  /** The state of the loops: the product table, the `imported` counter, and whether a save raised. */
  datatype Run = Run(products: Table<Product>, imported: nat, aborted: bool)

  /** The candidates of one product, one per variant, in order. */
  function VariantCandidates(p: ShopProduct): (cs: seq<Candidate>)
    ensures |cs| == |p.variants|
    ensures forall k :: 0 <= k < |cs| ==> cs[k] == Candidate(p.id, p.title, p.variants[k])
  {
    seq(|p.variants|, k requires 0 <= k < |p.variants| => Candidate(p.id, p.title, p.variants[k]))
  }

  /** The visiting order of the nested loops: products in order, each product's variants in order. */
  function Candidates(ps: seq<ShopProduct>): (cs: seq<Candidate>)
    decreases |ps|
  {
    if ps == [] then [] else VariantCandidates(ps[0]) + Candidates(ps[1..])
  }

  /** `Product.objects.filter(shopify_product_id=..., shopify_variant_id=..., store=...).exists()`. */
  predicate TripleTaken(products: Table<Product>, store: nat, c: Candidate) {
    exists k :: k in products.rows && products.rows[k].store == store
      && products.rows[k].shopifyProductId == c.productId && products.rows[k].shopifyVariantId == Some(c.variantId)
  }

  /** The row `Product.objects.create` saves: the candidate's ids, the title as name, model defaults otherwise. */
  function ImportedProduct(store: nat, c: Candidate): (p: Product)
    ensures p.store == store && p.shopifyProductId == c.productId && p.shopifyVariantId == Some(c.variantId)
    ensures p.name == c.title && p.isDigital
    ensures p.maxDownloadsPerLink == DefaultMaxDownloadsPerLink && p.linkExpirationHours == DefaultLinkExpirationHours
  {
    NewProduct(store, ProductDraft(c.productId, Some(c.variantId), c.title, None, None, None))
  }

  /**
   * The loops from a given point: stop once `ImportCap` rows were created; skip a
   * candidate whose triple exists; a candidate whose variant id another product holds
   * fails the UNIQUE constraint and ends the run, keeping the rows saved before it;
   * otherwise save the row and count it.
   */
  function ImportFrom(products: Table<Product>, store: nat, cs: seq<Candidate>, imported: nat): (r: Run)
    decreases |cs|
  {
    if cs == [] || imported >= ImportCap then Run(products, imported, false)
    else if TripleTaken(products, store, cs[0]) then ImportFrom(products, store, cs[1..], imported)
    else if VariantTaken(products, cs[0].variantId) then Run(products, imported, true)
    else ImportFrom(products.Insert(ImportedProduct(store, cs[0])), store, cs[1..], imported + 1)
  }

  /**
   * `Command.handle`: without a store, or when the fetch does not answer 200, nothing
   * is created; otherwise the loops run over the fetched products and only the product
   * table changes. The plan's product cap is not consulted and no counter moves.
   */
  function Import(db: Db, me: Option<nat>, fetch: Fetch): (r: ImportResult)
    ensures me.None? ==> r == ImportResult(db, NoStore)
    ensures me.Some? && fetch.status != StatusOk ==> r == ImportResult(db, FetchFailed)
    ensures r.db == db.(products := r.db.products)
    ensures me.Some? && fetch.status == StatusOk ==>
      var run := ImportFrom(db.products, me.value, Candidates(fetch.products), 0);
      r.db.products == run.products && r.outcome == (if run.aborted then Aborted(run.imported) else Imported(run.imported))
  {
    if me.None? then ImportResult(db, NoStore)
    else if fetch.status != StatusOk then ImportResult(db, FetchFailed)
    else
      var run := ImportFrom(db.products, me.value, Candidates(fetch.products), 0);
      ImportResult(db.(products := run.products), if run.aborted then Aborted(run.imported) else Imported(run.imported))
  }

  // ---------------------------------------------------------------------------
  // Properties of the loops
  // ---------------------------------------------------------------------------

  /** A run never creates more than `ImportCap` rows, and the sequence moves by exactly the rows created. */
  lemma {:induction false} ImportCounts(products: Table<Product>, store: nat, cs: seq<Candidate>, imported: nat)
    requires imported <= ImportCap
    ensures var r := ImportFrom(products, store, cs, imported);
      imported <= r.imported <= ImportCap && r.imported - imported <= |cs|
      && r.products.next == products.next + (r.imported - imported)
    decreases |cs|
  {
    if cs != [] && imported < ImportCap {
      if TripleTaken(products, store, cs[0]) {
        ImportCounts(products, store, cs[1..], imported);
      } else if !VariantTaken(products, cs[0].variantId) {
        ImportCounts(products.Insert(ImportedProduct(store, cs[0])), store, cs[1..], imported + 1);
      }
    }
  }

  /** The candidate `p` was built from: one of the run's candidates, under the store. */
  predicate FromCandidate(p: Product, store: nat, cs: seq<Candidate>) {
    exists i :: 0 <= i < |cs| && p == ImportedProduct(store, cs[i])
  }

  /**
   * A run only adds rows: every existing row stays as it was, and every new row sits
   * above the old sequence and is the import row of one of the candidates.
   */
  lemma {:induction false} ImportKeepsRows(products: Table<Product>, store: nat, cs: seq<Candidate>, imported: nat)
    requires products.Valid()
    ensures var r := ImportFrom(products, store, cs, imported);
      r.products.Valid()
      && (forall k :: k in products.rows ==> k in r.products.rows && r.products.rows[k] == products.rows[k])
      && (forall k :: k in r.products.rows && k !in products.rows ==>
            products.next <= k && FromCandidate(r.products.rows[k], store, cs))
    decreases |cs|
  {
    if cs != [] && imported < ImportCap {
      var r := ImportFrom(products, store, cs, imported);
      if TripleTaken(products, store, cs[0]) {
        ImportKeepsRows(products, store, cs[1..], imported);
        forall k | k in r.products.rows && k !in products.rows
          ensures FromCandidate(r.products.rows[k], store, cs)
        {
          var i :| 0 <= i < |cs[1..]| && r.products.rows[k] == ImportedProduct(store, cs[1..][i]);
          assert cs[1..][i] == cs[i + 1];
        }
      } else if !VariantTaken(products, cs[0].variantId) {
        var next := products.Insert(ImportedProduct(store, cs[0]));
        ImportKeepsRows(next, store, cs[1..], imported + 1);
        forall k | k in r.products.rows && k !in products.rows
          ensures products.next <= k && FromCandidate(r.products.rows[k], store, cs)
        {
          if k == products.next {
            assert r.products.rows[k] == ImportedProduct(store, cs[0]);
          } else {
            var i :| 0 <= i < |cs[1..]| && r.products.rows[k] == ImportedProduct(store, cs[1..][i]);
            assert cs[1..][i] == cs[i + 1];
          }
        }
      }
    }
  }

  /** A run keeps variant ids unique: the save that would repeat one is the save that raises. */
  lemma {:induction false} ImportKeepsVariantsUnique(products: Table<Product>, store: nat, cs: seq<Candidate>, imported: nat)
    requires products.Valid() && UniqueVariants(products)
    ensures UniqueVariants(ImportFrom(products, store, cs, imported).products)
    decreases |cs|
  {
    if cs != [] && imported < ImportCap {
      if TripleTaken(products, store, cs[0]) {
        ImportKeepsVariantsUnique(products, store, cs[1..], imported);
      } else if !VariantTaken(products, cs[0].variantId) {
        var next := products.Insert(ImportedProduct(store, cs[0]));
        assert products.next !in products.rows;
        assert UniqueVariants(next);
        ImportKeepsVariantsUnique(next, store, cs[1..], imported + 1);
      }
    }
  }

  /**
   * Unless the run was cut short by the cap or by a failed save, afterwards every
   * candidate's triple exists: each was either already known or created.
   */
  lemma {:induction false} ImportCoversAll(products: Table<Product>, store: nat, cs: seq<Candidate>, imported: nat)
    requires products.Valid()
    ensures var r := ImportFrom(products, store, cs, imported);
      !r.aborted && r.imported < ImportCap ==> forall i :: 0 <= i < |cs| ==> TripleTaken(r.products, store, cs[i])
    decreases |cs|
  {
    var r := ImportFrom(products, store, cs, imported);
    if cs != [] && imported < ImportCap && !r.aborted && r.imported < ImportCap {
      var head: Product;
      var next: Table<Product>;
      if TripleTaken(products, store, cs[0]) {
        next := products;
        var k :| k in products.rows && products.rows[k].store == store
          && products.rows[k].shopifyProductId == cs[0].productId && products.rows[k].shopifyVariantId == Some(cs[0].variantId);
        head := products.rows[k];
        ImportKeepsRows(next, store, cs[1..], imported);
        assert k in r.products.rows && r.products.rows[k] == head;
      } else {
        next := products.Insert(ImportedProduct(store, cs[0]));
        ImportKeepsRows(next, store, cs[1..], imported + 1);
        assert products.next in r.products.rows && r.products.rows[products.next] == ImportedProduct(store, cs[0]);
      }
      ImportCoversAll(next, store, cs[1..], if TripleTaken(products, store, cs[0]) then imported else imported + 1);
      forall i | 0 <= i < |cs|
        ensures TripleTaken(r.products, store, cs[i])
      {
        if i > 0 {
          assert cs[i] == cs[1..][i - 1];
        }
      }
    }
  }

  /** When every candidate's triple already exists, the run creates nothing. */
  lemma {:induction false} ImportSettled(products: Table<Product>, store: nat, cs: seq<Candidate>, imported: nat)
    requires forall i :: 0 <= i < |cs| ==> TripleTaken(products, store, cs[i])
    ensures ImportFrom(products, store, cs, imported) == Run(products, imported, false)
    decreases |cs|
  {
    if cs != [] && imported < ImportCap {
      assert TripleTaken(products, store, cs[0]);
      forall i | 0 <= i < |cs[1..]|
        ensures TripleTaken(products, store, cs[1..][i])
      {
        assert cs[1..][i] == cs[i + 1];
      }
      ImportSettled(products, store, cs[1..], imported);
    }
  }

  // ---------------------------------------------------------------------------
  // Properties of the command
  // ---------------------------------------------------------------------------

  /**
   * The command creates at most `ImportCap` rows, all of them for the acting store
   * with the fetched ids and titles, and changes no other row or table.
   */
  lemma ImportBounded(db: Db, me: Option<nat>, fetch: Fetch)
    requires db.products.Valid()
    ensures var r := Import(db, me, fetch);
      (forall k :: k in db.products.rows ==> k in r.db.products.rows && r.db.products.rows[k] == db.products.rows[k])
      && (r.outcome.Imported? || r.outcome.Aborted? ==>
            me.Some? && r.outcome.count <= ImportCap
            && r.db.products.next == db.products.next + r.outcome.count
            && forall k :: k in r.db.products.rows && k !in db.products.rows ==>
                 FromCandidate(r.db.products.rows[k], me.value, Candidates(fetch.products)))
      && (r.outcome == NoStore || r.outcome == FetchFailed ==> r.db == db)
  {
    if me.Some? && fetch.status == StatusOk {
      ImportCounts(db.products, me.value, Candidates(fetch.products), 0);
      ImportKeepsRows(db.products, me.value, Candidates(fetch.products), 0);
    }
  }

  /** Running the command keeps the database invariant. */
  lemma ImportKeepsConsistent(db: Db, me: Option<nat>, fetch: Fetch)
    requires Consistent(db) && (me.Some? ==> me.value in db.stores.rows)
    ensures Consistent(Import(db, me, fetch).db)
  {
    if me.Some? && fetch.status == StatusOk {
      var cs := Candidates(fetch.products);
      var run := ImportFrom(db.products, me.value, cs, 0);
      ImportKeepsRows(db.products, me.value, cs, 0);
      ImportKeepsVariantsUnique(db.products, me.value, cs, 0);
      forall k | k in run.products.rows && k !in db.products.rows
        ensures run.products.rows[k].store == me.value
      {
        var i :| 0 <= i < |cs| && run.products.rows[k] == ImportedProduct(me.value, cs[i]);
      }
      ProductsGrowKeepsConsistent(db, run.products);
    }
  }

  /**
   * Adding product rows of existing stores, keeping every existing row and the
   * unique variant ids, keeps the invariant.
   */
  lemma ProductsGrowKeepsConsistent(db: Db, products: Table<Product>)
    requires Consistent(db) && products.Valid() && UniqueVariants(products)
    requires forall k :: k in db.products.rows ==> k in products.rows && products.rows[k] == db.products.rows[k]
    requires forall k :: k in products.rows ==> products.rows[k].store in db.stores.rows
    ensures Consistent(db.(products := products))
  {
    var r := db.(products := products);
    assert ProductsReferStores(r.products, r.stores);
    assert FilesReferProducts(r.files, r.products);
    assert KeysReferProducts(r.keys, r.products);
    assert ItemsReferRows(r.items, r.orders, r.products);
    assert ItemsMatch(r.items, r.orders, r.products);
  }

  /**
   * A second run over the same fetch, after a first one that finished below the cap
   * without a failed save, creates nothing and leaves the database as it was.
   */
  lemma ImportTwice(db: Db, me: Option<nat>, fetch: Fetch)
    requires db.products.Valid()
    requires var r1 := Import(db, me, fetch); r1.outcome.Imported? && r1.outcome.count < ImportCap
    ensures var r1 := Import(db, me, fetch);
      var r2 := Import(r1.db, me, fetch);
      r2.db == r1.db && r2.outcome == Imported(0)
  {
    var cs := Candidates(fetch.products);
    ImportCoversAll(db.products, me.value, cs, 0);
    var r1 := Import(db, me, fetch);
    ImportSettled(r1.db.products, me.value, cs, 0);
  }

  // ---------------------------------------------------------------------------
  // The command
  // ---------------------------------------------------------------------------

  /** The candidates still to visit: the rest of product `i`'s variants from `j`, then the later products. */
  lemma CandidatesStep(ps: seq<ShopProduct>, i: nat)
    requires i < |ps|
    ensures Candidates(ps[i..]) == VariantCandidates(ps[i]) + Candidates(ps[i + 1..])
  {
    assert ps[i..][0] == ps[i];
    assert ps[i..][1..] == ps[i + 1..];
  }

  /** `Command.handle`: the loops over the fetched products, saving rows in place. */
  method ImportShopifyProducts(db: Database, me: Option<nat>, fetch: Fetch) returns (outcome: Outcome)
    modifies db
    ensures db.State() == Import(old(db.State()), me, fetch).db
    ensures outcome == Import(old(db.State()), me, fetch).outcome
  {
    if me.None? {
      return NoStore;
    }
    if fetch.status != StatusOk {
      return FetchFailed;
    }
    var store := me.value;
    var products := fetch.products;
    ghost var initial := db.State();
    ghost var final := ImportFrom(initial.products, store, Candidates(products), 0);
    var imported: nat := 0;
    var i := 0;
    while i < |products| && imported < ImportCap
      invariant 0 <= i <= |products|
      invariant db.State() == initial.(products := db.products)
      invariant ImportFrom(db.products, store, Candidates(products[i..]), imported) == final
    {
      CandidatesStep(products, i);
      var aborted;
      imported, aborted := ImportVariants(db, store, products[i], Candidates(products[i + 1..]), imported);
      if aborted {
        return Aborted(imported);
      }
      i := i + 1;
    }
    assert i == |products| ==> Candidates(products[i..]) == [];
    outcome := Imported(imported);
  }

  /**
   * The inner loop over one product's variants, from counter `imported`; `rest` stands
   * for the candidates the outer loop visits afterwards. Either a save raised, or the
   * run goes on from the new table and counter.
   */
  method ImportVariants(db: Database, store: nat, p: ShopProduct, ghost rest: seq<Candidate>, imported: nat)
    returns (count: nat, aborted: bool)
    modifies db`products
    ensures aborted ==> ImportFrom(old(db.products), store, VariantCandidates(p) + rest, imported) == Run(db.products, count, true)
    ensures !aborted ==>
      ImportFrom(old(db.products), store, VariantCandidates(p) + rest, imported) == ImportFrom(db.products, store, rest, count)
  {
    ghost var start := db.products;
    count := imported;
    var j := 0;
    assert VariantCandidates(p)[0..] == VariantCandidates(p);
    while j < |p.variants| && count < ImportCap
      invariant 0 <= j <= |p.variants|
      invariant ImportFrom(db.products, store, VariantCandidates(p)[j..] + rest, count)
             == ImportFrom(start, store, VariantCandidates(p) + rest, imported)
    {
      var c := Candidate(p.id, p.title, p.variants[j]);
      ghost var todo := VariantCandidates(p)[j..] + rest;
      assert todo[0] == c && todo[1..] == VariantCandidates(p)[j + 1..] + rest;
      if TripleTaken(db.products, store, c) {
        j := j + 1;
        continue;
      }
      if VariantTaken(db.products, c.variantId) {
        return count, true;
      }
      db.products := db.products.Insert(ImportedProduct(store, c));
      count := count + 1;
      j := j + 1;
    }
    assert j == |p.variants| ==> VariantCandidates(p)[j..] + rest == rest;
    aborted := false;
  }
}
