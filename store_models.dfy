/** The tenant record: one row per connected shop. */
module StoreModels {
  import opened Tables

  /**
   * A store. `currentPlan` is a nullable reference to a plan row (set to NULL when the
   * plan is deleted); `subscriptionStatus` is a free, nullable string. The three usage
   * counters are maintained by the views. The external subscription id and the
   * billing-period and counter-reset timestamps are never read or written by the
   * modelled operations and are not part of the record.
   */
  datatype Store = Store(
    domain: string,
    accessToken: string,
    email: Option<string>,
    isActive: bool,
    currentPlan: Option<nat>,
    subscriptionStatus: Option<string>,
    productCount: int,
    storageUsedBytes: int,
    monthOrderCount: int)

  /** A freshly created store: active, no subscription status, all three counters at 0. */
  function NewStore(domain: string, accessToken: string, email: Option<string>, plan: Option<nat>): (s: Store)
    ensures s.domain == domain && s.accessToken == accessToken && s.email == email && s.currentPlan == plan
    ensures s.isActive && s.subscriptionStatus.None?
    ensures s.productCount == 0 && s.storageUsedBytes == 0 && s.monthOrderCount == 0
  {
    Store(domain, accessToken, email, true, plan, None, 0, 0, 0)
  }

  /** `shopify_domain` is unique: at most one store per domain. */
  ghost predicate UniqueDomains(stores: Table<Store>) {
    forall a, b :: a in stores.rows && b in stores.rows && a != b ==> stores.rows[a].domain != stores.rows[b].domain
  }

  /** `Store.objects.filter(shopify_domain=d).first()`; a missing domain (NULL) matches no store. */
  function FindByDomain(stores: Table<Store>, domain: Option<string>): (r: Option<nat>)
    ensures r.Some? ==> domain.Some? && r.value in stores.rows && stores.rows[r.value].domain == domain.value
    ensures stores.Valid() && r.None? ==> forall s :: s in stores.rows ==> domain != Some(stores.rows[s].domain)
  {
    match domain
    case None => None
    case Some(d) => stores.First((s: Store) => s.domain == d)
  }

  /** Changing other fields of the stores leaves the answer of a domain lookup as it was. */
  lemma FindByDomainStable(stores: Table<Store>, stores': Table<Store>, domain: Option<string>)
    requires stores'.next == stores.next && stores'.rows.Keys == stores.rows.Keys
    requires forall k :: k in stores.rows ==> stores'.rows[k].domain == stores.rows[k].domain
    ensures FindByDomain(stores', domain) == FindByDomain(stores, domain)
  {
    if domain.Some? {
      var d := domain.value;
      FirstFromAgrees(stores, stores', (s: Store) => s.domain == d, 0);
    }
  }

  /** With unique domains, the domain of a store names that store alone, and the lookup finds it. */
  lemma FindUnique(stores: Table<Store>, sid: nat)
    requires stores.Valid() && UniqueDomains(stores) && sid in stores.rows
    ensures FindByDomain(stores, Some(stores.rows[sid].domain)) == Some(sid)
    ensures forall k :: k in stores.rows && stores.rows[k].domain == stores.rows[sid].domain ==> k == sid
  {
  }
}
