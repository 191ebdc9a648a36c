/** The subscription catalogue: one row per plan, read-only to the views. */
module PlanModels {
  import opened Tables

  /**
   * A subscription tier. Each cap is an optional integer column: `None` (NULL) means
   * the plan sets no cap. Prices and the custom-email-template flag drive no logic and
   * are not part of the model.
   */
  datatype Plan = Plan(
    name: string,
    maxProducts: Option<int>,
    maxOrdersPerMonth: Option<int>,
    maxStorageGb: Option<int>,
    isActive: bool)

  /** The storage cap is a whole number of gigabytes, scaled by 1024^3. */
  const BytesPerGb: int := 1024 * 1024 * 1024

  /** A new plan row: `is_active` defaults to true. */
  function NewPlan(name: string, maxProducts: Option<int>, maxOrdersPerMonth: Option<int>,
                   maxStorageGb: Option<int>, isActive: Option<bool>): (p: Plan)
    ensures p.name == name && p.maxProducts == maxProducts
    ensures p.maxOrdersPerMonth == maxOrdersPerMonth && p.maxStorageGb == maxStorageGb
    ensures isActive.None? ==> p.isActive
    ensures isActive.Some? ==> p.isActive == isActive.value
  {
    Plan(name, maxProducts, maxOrdersPerMonth, maxStorageGb, isActive.GetOr(true))
  }

  /** The monthly-order cap refuses an order: a plan, a non-NULL cap, and the counter at or above it. */
  predicate OrderLimitReached(plan: Option<Plan>, monthOrderCount: int) {
    plan.Some? && plan.value.maxOrdersPerMonth.Some?
    && monthOrderCount >= plan.value.maxOrdersPerMonth.value
  }

  /** The product cap refuses a new product: a plan, a non-NULL cap, and the counter at or above it. */
  predicate ProductLimitReached(plan: Option<Plan>, productCount: int) {
    plan.Some? && plan.value.maxProducts.Some?
    && productCount >= plan.value.maxProducts.value
  }

  /**
   * How many of `n` requests a cap admits from counter `count`, each admitted request
   * counting one: none from at or above the cap, otherwise all of them up to the cap.
   */
  function Admitted(count: int, cap: int, n: nat): (a: nat)
    ensures a <= n
    ensures a > 0 ==> count + a <= cap
  {
    if count >= cap then 0 else if count + n <= cap then n else cap - count
  }

  /**
   * The storage limit in bytes. The source tests the gigabyte column for truthiness,
   * so a NULL column and a column holding 0 both mean "no limit".
   */
  function StorageLimitBytes(plan: Option<Plan>): (limit: Option<int>)
    ensures limit.Some? <==> plan.Some? && plan.value.maxStorageGb.Some? && plan.value.maxStorageGb.value != 0
    ensures limit.Some? ==> limit.value == plan.value.maxStorageGb.value * BytesPerGb && limit.value != 0
  {
    if plan.Some? && plan.value.maxStorageGb.Some? && plan.value.maxStorageGb.value != 0
    then Some(plan.value.maxStorageGb.value * BytesPerGb)
    else None
  }

  /** Plan names are unique. */
  ghost predicate UniqueNames(plans: Table<Plan>) {
    forall a, b :: a in plans.rows && b in plans.rows && a != b ==> plans.rows[a].name != plans.rows[b].name
  }
}
