/**
 * The `InventoryItem` entity as a value. Its identifier is a `Long` that is
 * absent (`null`) until the store assigns one; price is a `BigDecimal`,
 * carried here in cents; the two timestamps are clock readings set by the
 * entity's persistence lifecycle and are carried without interpretation.
 */
module Entity {
  import opened Wrappers

  /** A `LocalDateTime` reading, carried but never computed with. */
  type Timestamp = int

  datatype InventoryItem = InventoryItem(
    id: Option<int>,
    name: string,
    description: Option<string>,
    quantity: int,
    price: int,
    category: string,
    createdAt: Option<Timestamp>,
    updatedAt: Option<Timestamp>)

}
