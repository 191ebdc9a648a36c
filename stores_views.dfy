/**
 * The store endpoints: onboarding (a get-or-create keyed by the shop domain), the
 * subscription change and cancellation of the acting store, and the read-only views
 * of it. The acting store ("me", the first store row) is a parameter.
 */
module StoreViews {
  import opened Tables
  import opened PlanModels
  import opened StoreModels
  import opened Schema

  const Active: string := "active"
  const Canceled: string := "canceled"

  /** Python truthiness of an optional request field: present and non-empty. */
  predicate Given(v: Option<string>) {
    v.Some? && v.value != ""
  }

  /** `Plan.objects.filter(is_active=True).order_by('id').first()`. */
  function DefaultPlan(plans: Table<Plan>): (r: Option<nat>)
    ensures r.Some? ==> r.value in plans.rows && plans.rows[r.value].isActive
    ensures r.Some? ==> forall k :: k in plans.rows && k < r.value ==> !plans.rows[k].isActive
    ensures plans.Valid() && r.None? ==> forall k :: k in plans.rows ==> !plans.rows[k].isActive
  {
    plans.First((p: Plan) => p.isActive)
  }

  // ---------------------------------------------------------------------------
  // Onboarding
  // ---------------------------------------------------------------------------

  /** Onboarding's effect, its status, and the store it answers with. */
  datatype Onboarded = Onboarded(db: Db, status: Status, store: Option<nat>)

  /**
   * An existing store reconnecting: the token is replaced, the email only by a
   * non-empty one, and the store is reactivated; nothing else changes.
   */
  function Reconnected(s: Store, token: string, email: Option<string>): (t: Store)
    ensures t.accessToken == token && t.isActive
    ensures Given(email) ==> t.email == email
    ensures !Given(email) ==> t.email == s.email
    ensures t.domain == s.domain && t.currentPlan == s.currentPlan && t.subscriptionStatus == s.subscriptionStatus
    ensures t.productCount == s.productCount && t.storageUsedBytes == s.storageUsedBytes
    ensures t.monthOrderCount == s.monthOrderCount
  {
    s.(accessToken := token, email := if Given(email) then email else s.email, isActive := true)
  }

  /**
   * `StoreOnboardingView.post`: a missing or empty domain or token is refused (400)
   * with nothing changed. A domain no store has yet creates one store with the given
   * token and email, active, on the lowest-id active plan, with zero counters (201).
   * A known domain creates nothing and reconnects that store (200).
   */
  function Onboard(db: Db, domain: Option<string>, token: Option<string>, email: Option<string>): (r: Onboarded)
    ensures r.status in {Created, Ok, BadRequest}
    ensures r.status == BadRequest <==> !Given(domain) || !Given(token)
    ensures r.status == BadRequest ==> r.db == db && r.store.None?
    ensures r.status != BadRequest ==>
      r.store.Some? && r.store.value in r.db.stores.rows && r.db.stores.rows[r.store.value].domain == domain.value
    ensures r.status == Created <==> Given(domain) && Given(token) && FindByDomain(db.stores, domain).None?
    ensures r.status == Created ==>
      r.store == Some(db.stores.next)
      && r.db == db.(stores := db.stores.Insert(NewStore(domain.value, token.value, email, DefaultPlan(db.plans))))
    ensures r.status == Ok ==>
      var sid := FindByDomain(db.stores, domain).value;
      r.store == Some(sid) && r.db == WithStore(db, sid, Reconnected(db.stores.rows[sid], token.value, email))
  {
    if !Given(domain) || !Given(token) then Onboarded(db, BadRequest, None)
    else
      var plan := DefaultPlan(db.plans);
      match FindByDomain(db.stores, domain)
      case None =>
        Onboarded(db.(stores := db.stores.Insert(NewStore(domain.value, token.value, email, plan))), Created, Some(db.stores.next))
      case Some(sid) =>
        Onboarded(WithStore(db, sid, Reconnected(db.stores.rows[sid], token.value, email)), Ok, Some(sid))
  }

  /** Inserting a store with a domain no store has, a valid plan and zero counters keeps the invariant. */
  lemma InsertStoreKeepsConsistent(db: Db, s: Store)
    requires Consistent(db)
    requires forall k :: k in db.stores.rows ==> db.stores.rows[k].domain != s.domain
    requires s.currentPlan.Some? ==> s.currentPlan.value in db.plans.rows
    requires s.productCount >= 0 && s.monthOrderCount >= 0
    ensures Consistent(db.(stores := db.stores.Insert(s)))
  {
    var r := db.(stores := db.stores.Insert(s));
    assert db.stores.next !in db.stores.rows;
    assert StoresReferPlans(r.stores, r.plans);
    assert ProductsReferStores(r.products, r.stores);
    assert OrdersReferStores(r.orders, r.stores);
    assert LogsReferStores(r.logs, r.stores);
    assert UniqueDomains(r.stores);
    assert Counters(r.stores);
  }

  /** Onboarding keeps the database invariant; in particular domains stay unique. */
  lemma OnboardKeepsConsistent(db: Db, domain: Option<string>, token: Option<string>, email: Option<string>)
    requires Consistent(db)
    ensures Consistent(Onboard(db, domain, token, email).db)
  {
    var r := Onboard(db, domain, token, email);
    if r.status == Created {
      var s := NewStore(domain.value, token.value, email, DefaultPlan(db.plans));
      assert r.db == db.(stores := db.stores.Insert(s));
      InsertStoreKeepsConsistent(db, s);
    } else if r.status == Ok {
      var sid := FindByDomain(db.stores, domain).value;
      var s := Reconnected(db.stores.rows[sid], token.value, email);
      assert r.db == WithStore(db, sid, s);
      assert StoresReferPlans(db.stores, db.plans) && Counters(db.stores);
      StoreUpdateKeepsConsistent(db, sid, s);
    }
  }

  /**
   * After a successful onboarding the domain names exactly one store, the one in the
   * answer, and looking the domain up finds it.
   */
  lemma OnboardFindsStore(db: Db, domain: Option<string>, token: Option<string>, email: Option<string>)
    requires db.stores.Valid() && UniqueDomains(db.stores)
    ensures var r := Onboard(db, domain, token, email);
      r.status != BadRequest ==>
        (forall k :: k in r.db.stores.rows && r.db.stores.rows[k].domain == domain.value ==> r.store == Some(k))
        && FindByDomain(r.db.stores, domain) == r.store
  {
    var r := Onboard(db, domain, token, email);
    if r.status != BadRequest {
      OnboardKeepsDomainsUnique(db, domain, token, email);
      FindUnique(r.db.stores, r.store.value);
    }
  }

  /** Onboarding keeps the store keys valid and the domains unique. */
  lemma OnboardKeepsDomainsUnique(db: Db, domain: Option<string>, token: Option<string>, email: Option<string>)
    requires db.stores.Valid() && UniqueDomains(db.stores)
    ensures var r := Onboard(db, domain, token, email);
      r.db.stores.Valid() && UniqueDomains(r.db.stores)
  {
    var r := Onboard(db, domain, token, email);
    if r.status == Created {
      assert db.stores.next !in db.stores.rows;
    } else if r.status == Ok {
      var sid := FindByDomain(db.stores, domain).value;
      assert r.db.stores.rows == db.stores.rows[sid := Reconnected(db.stores.rows[sid], token.value, email)];
    }
  }

  /**
   * Onboarding is idempotent: onboarding again with the same request leaves the
   * database exactly as the first call left it, answers with the same store, and
   * (after a success) reports the store as existing.
   */
  lemma OnboardIdempotent(db: Db, domain: Option<string>, token: Option<string>, email: Option<string>)
    requires db.stores.Valid() && UniqueDomains(db.stores)
    ensures var r1 := Onboard(db, domain, token, email);
      var r2 := Onboard(r1.db, domain, token, email);
      r2.db == r1.db && r2.store == r1.store
      && r2.status == (if r1.status == BadRequest then BadRequest else Ok)
  {
    var r1 := Onboard(db, domain, token, email);
    if r1.status != BadRequest {
      OnboardFindsStore(db, domain, token, email);
      var sid := r1.store.value;
      var row := r1.db.stores.rows[sid];
      assert Reconnected(row, token.value, email) == row;
      SetSame(r1.db.stores, sid);
    }
  }

  // ---------------------------------------------------------------------------
  // Subscription
  // ---------------------------------------------------------------------------

  /**
   * `StoreSubscriptionView.post`: no store is 404; a missing or zero `plan_id` is 400;
   * an id no plan has is 404; otherwise the store moves to that plan with status
   * "active", and nothing else changes.
   */
  function Subscribe(db: Db, me: Option<nat>, planId: Option<int>): (r: Response)
    requires me.Some? ==> me.value in db.stores.rows
    ensures r.status in {Ok, BadRequest, NotFound}
    ensures r.status != Ok ==> r.db == db
    ensures me.None? ==> r.status == NotFound
    ensures me.Some? && (planId.None? || planId.value == 0) ==> r.status == BadRequest
    ensures r.status == Ok <==> me.Some? && planId.Some? && planId.value > 0 && planId.value as nat in db.plans.rows
    ensures r.status == Ok ==>
      var s := db.stores.rows[me.value];
      r.db == WithStore(db, me.value, s.(currentPlan := Some(planId.value as nat), subscriptionStatus := Some(Active)))
  {
    if me.None? then Response(db, NotFound)
    else if planId.None? || planId.value == 0 then Response(db, BadRequest)
    else if planId.value < 0 || planId.value as nat !in db.plans.rows then Response(db, NotFound)
    else
      var s := db.stores.rows[me.value];
      Response(WithStore(db, me.value, s.(currentPlan := Some(planId.value as nat), subscriptionStatus := Some(Active))), Ok)
  }

  /** `StoreSubscriptionView.delete`: no store is 404; otherwise the status becomes "canceled", the plan stays. */
  function CancelSubscription(db: Db, me: Option<nat>): (r: Response)
    requires me.Some? ==> me.value in db.stores.rows
    ensures r.status in {Ok, NotFound}
    ensures r.status == Ok <==> me.Some?
    ensures r.status == NotFound ==> r.db == db
    ensures r.status == Ok ==>
      var s := db.stores.rows[me.value];
      r.db == WithStore(db, me.value, s.(subscriptionStatus := Some(Canceled)))
  {
    if me.None? then Response(db, NotFound)
    else
      var s := db.stores.rows[me.value];
      Response(WithStore(db, me.value, s.(subscriptionStatus := Some(Canceled))), Ok)
  }

  /** A plan change keeps the invariant: the new plan reference names a plan. */
  lemma SubscribeKeepsConsistent(db: Db, me: Option<nat>, planId: Option<int>)
    requires Consistent(db) && (me.Some? ==> me.value in db.stores.rows)
    ensures Consistent(Subscribe(db, me, planId).db)
  {
    var r := Subscribe(db, me, planId);
    if r.status == Ok {
      var s := db.stores.rows[me.value];
      var s1 := s.(currentPlan := Some(planId.value as nat), subscriptionStatus := Some(Active));
      assert r.db == WithStore(db, me.value, s1);
      assert Counters(db.stores);
      StoreUpdateKeepsConsistent(db, me.value, s1);
    }
  }

  /** Cancelling keeps the invariant. */
  lemma CancelKeepsConsistent(db: Db, me: Option<nat>)
    requires Consistent(db) && (me.Some? ==> me.value in db.stores.rows)
    ensures Consistent(CancelSubscription(db, me).db)
  {
    var r := CancelSubscription(db, me);
    if r.status == Ok {
      var s := db.stores.rows[me.value];
      var s1 := s.(subscriptionStatus := Some(Canceled));
      assert r.db == WithStore(db, me.value, s1);
      assert StoresReferPlans(db.stores, db.plans) && Counters(db.stores);
      StoreUpdateKeepsConsistent(db, me.value, s1);
    }
  }

  /**
   * Subscribing and then cancelling leaves the store on the new plan with status
   * "canceled" and every other store field, counters included, as it was.
   */
  lemma SubscribeThenCancel(db: Db, me: nat, planId: int)
    requires me in db.stores.rows && Subscribe(db, Some(me), Some(planId)).status == Ok
    ensures var r1 := Subscribe(db, Some(me), Some(planId));
      var r2 := CancelSubscription(r1.db, Some(me));
      r2.status == Ok && r2.db.stores.rows.Keys == db.stores.rows.Keys
      && r2.db.stores.rows[me] == db.stores.rows[me].(currentPlan := Some(planId as nat), subscriptionStatus := Some(Canceled))
      && (forall k :: k in db.stores.rows && k != me ==> r2.db.stores.rows[k] == db.stores.rows[k])
  {
  }

  // ---------------------------------------------------------------------------
  // Read-only views
  // ---------------------------------------------------------------------------

  /** What a read-only store view answers: a status and the serialized store. */
  datatype Shown = Shown(status: Status, store: Option<Store>)

  /**
   * `StoreSubscriptionView.get` and `StoreRetrieveView.get`: 404 without a store,
   * otherwise the acting store's row. Neither changes the database.
   */
  function CurrentStore(db: Db, me: Option<nat>): (r: Shown)
    requires me.Some? ==> me.value in db.stores.rows
    ensures r.status == NotFound <==> me.None?
    ensures r.status in {Ok, NotFound}
    ensures r.store.Some? <==> r.status == Ok
    ensures r.store.Some? ==> r.store.value == db.stores.rows[me.value]
  {
    if me.None? then Shown(NotFound, None) else Shown(Ok, Some(db.stores.rows[me.value]))
  }

  // ---------------------------------------------------------------------------
  // The handlers
  // ---------------------------------------------------------------------------

  /** `StoreOnboardingView.post`: the default plan, `get_or_create`, then the field-by-field update and save. */
  method StoreOnboarding(db: Database, domain: Option<string>, token: Option<string>, email: Option<string>)
    returns (status: Status, store: Option<nat>)
    modifies db
    ensures db.State() == Onboard(old(db.State()), domain, token, email).db
    ensures status == Onboard(old(db.State()), domain, token, email).status
    ensures store == Onboard(old(db.State()), domain, token, email).store
  {
    if !Given(domain) || !Given(token) {
      return BadRequest, None;
    }
    var plan := DefaultPlan(db.plans);
    var found := FindByDomain(db.stores, domain);
    if found.None? {
      store := Some(db.stores.next);
      db.stores := db.stores.Insert(NewStore(domain.value, token.value, email, plan));
      return Created, store;
    }
    var sid := found.value;
    var s := db.stores.rows[sid];
    s := s.(accessToken := token.value);
    if Given(email) {
      s := s.(email := email);
    }
    s := s.(isActive := true);
    db.stores := db.stores.Set(sid, s);
    status, store := Ok, found;
  }

  /** `StoreSubscriptionView.post`, saving the store in place. */
  method SubscriptionChange(db: Database, me: Option<nat>, planId: Option<int>) returns (status: Status)
    requires me.Some? ==> me.value in db.stores.rows
    modifies db
    ensures db.State() == Subscribe(old(db.State()), me, planId).db
    ensures status == Subscribe(old(db.State()), me, planId).status
  {
    if me.None? {
      return NotFound;
    }
    if planId.None? || planId.value == 0 {
      return BadRequest;
    }
    if planId.value < 0 || planId.value as nat !in db.plans.rows {
      return NotFound;
    }
    var s := db.stores.rows[me.value];
    s := s.(currentPlan := Some(planId.value as nat));
    s := s.(subscriptionStatus := Some(Active));
    db.stores := db.stores.Set(me.value, s);
    status := Ok;
  }

  /** `StoreSubscriptionView.delete`, saving the store in place. */
  method SubscriptionCancel(db: Database, me: Option<nat>) returns (status: Status)
    requires me.Some? ==> me.value in db.stores.rows
    modifies db
    ensures db.State() == CancelSubscription(old(db.State()), me).db
    ensures status == CancelSubscription(old(db.State()), me).status
  {
    if me.None? {
      return NotFound;
    }
    var s := db.stores.rows[me.value];
    db.stores := db.stores.Set(me.value, s.(subscriptionStatus := Some(Canceled)));
    status := Ok;
  }
}
