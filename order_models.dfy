/** Orders received from the shop, their fulfilled lines, download links and key assignments. */
module OrderModels {

  /** DownloadLink's external identifier, a uuid4 string. */
  type Uuid = string

  const DefaultQuantity: int := 1

  /** An order of one store. */
  datatype Order = Order(store: nat, shopifyOrderId: int, email: string)

  /** A fulfilled line of an order, referencing one product. */
  datatype OrderItem = OrderItem(order: nat, product: nat, quantity: int)

  /**
   * A download link of one order item. Links are keyed by their uuid, which is unique;
   * the stored URL is derived from the uuid and is not modelled.
   */
  datatype DownloadLink = DownloadLink(item: nat, expiresAt: int, downloadCount: int)

  /** A new link: `download_count` starts at 0. */
  function NewDownloadLink(item: nat, expiresAt: int): (l: DownloadLink)
    ensures l.item == item && l.expiresAt == expiresAt && l.downloadCount == 0
  {
    DownloadLink(item, expiresAt, 0)
  }

  /**
   * The record that a license key was handed to an order item. The schema itself lets
   * a key be referenced twice; single assignment rests on the key's `is_assigned` flag.
   */
  datatype AssignedLicenseKey = AssignedLicenseKey(item: nat, key: nat)
}
