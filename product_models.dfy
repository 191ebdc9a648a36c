/** Products of a store, and the files and license keys attached to a product. */
module ProductModels {
  import opened Tables

  const DefaultMaxDownloadsPerLink: int := 5
  const DefaultLinkExpirationHours: int := 72

  /**
   * A product, owned by exactly one store. `shopifyVariantId` is nullable and, when
   * set, unique across all products.
   */
  datatype Product = Product(
    store: nat,
    shopifyProductId: int,
    shopifyVariantId: Option<int>,
    name: string,
    isDigital: bool,
    maxDownloadsPerLink: int,
    linkExpirationHours: int)

  /** The writable fields a client or the import supplies; absent ones take the model defaults. */
  datatype ProductDraft = ProductDraft(
    shopifyProductId: int,
    shopifyVariantId: Option<int>,
    name: string,
    isDigital: Option<bool>,
    maxDownloadsPerLink: Option<int>,
    linkExpirationHours: Option<int>)

  /** The row saved for a draft: defaults `is_digital = true`, 5 downloads per link, links live 72 hours. */
  function NewProduct(store: nat, d: ProductDraft): (p: Product)
    ensures p.store == store && p.shopifyProductId == d.shopifyProductId
    ensures p.shopifyVariantId == d.shopifyVariantId && p.name == d.name
    ensures p.isDigital == (d.isDigital.None? || d.isDigital.value)
    ensures d.maxDownloadsPerLink.None? ==> p.maxDownloadsPerLink == 5
    ensures d.maxDownloadsPerLink.Some? ==> p.maxDownloadsPerLink == d.maxDownloadsPerLink.value
    ensures d.linkExpirationHours.None? ==> p.linkExpirationHours == 72
    ensures d.linkExpirationHours.Some? ==> p.linkExpirationHours == d.linkExpirationHours.value
  {
    Product(store, d.shopifyProductId, d.shopifyVariantId, d.name, d.isDigital.GetOr(true),
            d.maxDownloadsPerLink.GetOr(DefaultMaxDownloadsPerLink),
            d.linkExpirationHours.GetOr(DefaultLinkExpirationHours))
  }

  /** An uploaded file, owned by exactly one product. */
  datatype File = File(
    product: nat,
    fileName: string,
    filePath: string,
    fileType: Option<string>,
    sizeBytes: int,
    displayName: Option<string>)

  /** A file's label: its display name when that is non-empty, otherwise its file name. */
  function Label(f: File): (s: string)
    ensures f.displayName.Some? && f.displayName.value != "" ==> s == f.displayName.value
    ensures f.displayName.None? || f.displayName.value == "" ==> s == f.fileName
  {
    if f.displayName.Some? && f.displayName.value != "" then f.displayName.value else f.fileName
  }

  /** A license key of a product's key pool. */
  datatype LicenseKey = LicenseKey(product: nat, key: string, isAssigned: bool)

  /** A new key row: `is_assigned` defaults to false. */
  function NewLicenseKey(product: nat, key: string, isAssigned: Option<bool>): (k: LicenseKey)
    ensures k.product == product && k.key == key
    ensures isAssigned.None? ==> !k.isAssigned
    ensures isAssigned.Some? ==> k.isAssigned == isAssigned.value
  {
    LicenseKey(product, key, isAssigned.GetOr(false))
  }

  /** Some product already carries variant id `v`. */
  predicate VariantTaken(products: Table<Product>, v: int) {
    exists k :: k in products.rows && products.rows[k].shopifyVariantId == Some(v)
  }

  /** The UNIQUE constraint on `shopify_variant_id`; NULLs never clash. */
  ghost predicate UniqueVariants(products: Table<Product>) {
    forall a, b :: a in products.rows && b in products.rows && a != b && products.rows[a].shopifyVariantId.Some?
      ==> products.rows[a].shopifyVariantId != products.rows[b].shopifyVariantId
  }

  /**
   * The (store, product id, variant id) UNIQUE constraint follows from the unique
   * variant ids for every row whose variant id is set; rows with a NULL variant id
   * are never equal under SQL's NULL semantics.
   */
  lemma UniqueTriples(products: Table<Product>, a: nat, b: nat)
    requires UniqueVariants(products)
    requires a in products.rows && b in products.rows && a != b
    requires products.rows[a].shopifyVariantId.Some?
    ensures (products.rows[a].store, products.rows[a].shopifyProductId, products.rows[a].shopifyVariantId)
         != (products.rows[b].store, products.rows[b].shopifyProductId, products.rows[b].shopifyVariantId)
  {
  }
}
