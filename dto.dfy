/**
 * `InventoryItemResponse`: the transport copy of an inventory item, with the
 * conversions `fromEntity` (all eight fields) and `toEntity` (the identifier
 * and the five mutable fields; the timestamps are left unset).
 */
module Dto {
  import opened Wrappers
  import opened Entity

  datatype InventoryItemResponse = InventoryItemResponse(
    id: Option<int>,
    name: string,
    description: Option<string>,
    quantity: int,
    price: int,
    category: string,
    createdAt: Option<Timestamp>,
    updatedAt: Option<Timestamp>)

  /**
   * `fromEntity`: a fresh response carrying every field of the item. Back
   * through `toEntity` it gives the item with its timestamps unset, and the
   * timestamps themselves are in the response.
   */
  function FromEntity(item: InventoryItem): (r: InventoryItemResponse)
    ensures ToEntity(r) == item.(createdAt := None, updatedAt := None)
    ensures r.createdAt == item.createdAt && r.updatedAt == item.updatedAt
  {
    InventoryItemResponse(item.id, item.name, item.description, item.quantity, item.price,
                          item.category, item.createdAt, item.updatedAt)
  }

  /** `toEntity`: a new item carrying the response's identifier and five mutable fields. */
  function ToEntity(response: InventoryItemResponse): (item: InventoryItem)
    ensures item.createdAt.None? && item.updatedAt.None?
  {
    InventoryItem(response.id, response.name, response.description, response.quantity,
                  response.price, response.category, None, None)
  }

  /** `fromEntity` loses nothing: distinct items give distinct responses. */
  lemma FromEntityInjective(a: InventoryItem, b: InventoryItem)
    ensures FromEntity(a) == FromEntity(b) ==> a == b
  {
  }

  /** Converting a response to an item and back keeps everything but the timestamps. */
  lemma FromEntityToEntity(response: InventoryItemResponse)
    ensures FromEntity(ToEntity(response)) == response.(createdAt := None, updatedAt := None)
  {
  }
}
