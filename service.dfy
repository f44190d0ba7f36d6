/**
 * `InventoryService`: the single entry point for inventory operations. Reads
 * pass the store's results through; `updateItem` and `deleteItem` fetch the
 * record first, so that a missing identifier fails with a not-found error
 * before anything is written.
 */
module Service {
  import opened Wrappers
  import opened Text
  import opened Entity
  import opened Repository

  /** `ResourceNotFoundException(resourceName, id)`. */
  datatype ResourceNotFound = ResourceNotFound(resourceName: string, id: int)

  /**
   * The five setters of `updateItem`: name, description, quantity, price and
   * category come from `details`; identifier and timestamps stay the record's.
   */
  function ApplyDetails(item: InventoryItem, details: InventoryItem): (r: InventoryItem)
    ensures r.id == item.id && r.createdAt == item.createdAt && r.updatedAt == item.updatedAt
    ensures r.(id := details.id, createdAt := details.createdAt, updatedAt := details.updatedAt) == details
  {
    item.(name := details.name, description := details.description, quantity := details.quantity,
          price := details.price, category := details.category)
  }

  /** Only the five mutable fields of `details` matter: its identifier and timestamps are ignored. */
  lemma ApplyDetailsIgnoresIdentity(item: InventoryItem, details: InventoryItem, id: Option<int>,
                                    createdAt: Option<Timestamp>, updatedAt: Option<Timestamp>)
    ensures ApplyDetails(item, details.(id := id, createdAt := createdAt, updatedAt := updatedAt))
         == ApplyDetails(item, details)
  {
  }

  /** Applying the same details twice is applying them once. */
  lemma ApplyDetailsIdempotent(item: InventoryItem, details: InventoryItem)
    ensures ApplyDetails(ApplyDetails(item, details), details) == ApplyDetails(item, details)
  {
  }

  /** The table after `updateItem(id, details)`: unchanged when `id` is absent. */
  ghost function Updated(m: map<int, InventoryItem>, id: int, details: InventoryItem): (r: map<int, InventoryItem>)
  {
    if id in m then m[id := ApplyDetails(m[id], details)] else m
  }

  /** Repeating an update with the same identifier and details changes nothing more. */
  lemma UpdateIdempotent(m: map<int, InventoryItem>, id: int, details: InventoryItem)
    ensures Updated(Updated(m, id, details), id, details) == Updated(m, id, details)
  {
    if id in m {
      ApplyDetailsIdempotent(m[id], details);
    }
  }

  class InventoryService {
    const repository: InventoryItemRepository

    constructor (repository: InventoryItemRepository)
      ensures this.repository == repository
    {
      this.repository := repository;
    }

    /** `getAllItems`: the store's `findAll`, unchanged. */
    method GetAllItems() returns (r: seq<InventoryItem>)
      requires repository.Valid()
      ensures Enumerates(r, repository.items)
    {
      r := repository.FindAll();
    }

    /** `getItemById`: the stored record, or not-found for an absent identifier. */
    function GetItemById(id: int): (r: Result<InventoryItem, ResourceNotFound>)
      reads repository
      requires repository.Valid()
      ensures r.Success? <==> id in repository.items
      ensures r.Success? ==> r.value == repository.items[id] && r.value.id == Some(id)
      ensures r.Failure? ==> r.error == ResourceNotFound("InventoryItem", id)
    {
      match repository.FindById(id)
      case Some(item) => Success(item)
      case None => Failure(ResourceNotFound("InventoryItem", id))
    }

    /** `getItemsByCategory`: the store's `findByCategory`, unchanged. */
    method GetItemsByCategory(category: string) returns (r: seq<InventoryItem>)
      requires repository.Valid()
      ensures Distinct(r)
      ensures forall x :: x in r <==> IsRecordOf(repository.items, x) && x.category == category
    {
      r := repository.FindByCategory(category);
    }

    /** `searchItemsByName`: the store's `findByNameContainingIgnoreCase`, unchanged. */
    method SearchItemsByName(name: string) returns (r: seq<InventoryItem>)
      requires repository.Valid()
      ensures Distinct(r)
      ensures forall x :: x in r <==> IsRecordOf(repository.items, x) && ContainsIgnoreCase(x.name, name)
      ensures name == "" ==> Enumerates(r, repository.items)
    {
      r := repository.FindByNameContainingIgnoreCase(name);
    }

    /**
     * `createItem`: saves the item. An item whose identifier is stored
     * replaces that record; any other item gains exactly one fresh
     * identifier, and every record already stored is kept.
     */
    method CreateItem(item: InventoryItem) returns (created: InventoryItem)
      requires repository.Valid()
      modifies repository
      ensures repository.Valid()
      ensures created.id.Some? && repository.items == old(repository.items)[created.id.value := created]
      ensures item.id.Some? && item.id.value in old(repository.items) ==> created == item
      ensures !(item.id.Some? && item.id.value in old(repository.items)) ==>
                && created == item.(id := created.id)
                && created.id.value !in old(repository.items)
      ensures GetItemById(created.id.value) == Success(created)
    {
      created := repository.Save(item);
    }

    /**
     * `updateItem`: fetches the record (failing with not-found, and writing
     * nothing, when `id` is absent), overwrites its five mutable fields with
     * those of `details` and saves it under its own identifier.
     */
    method UpdateItem(id: int, details: InventoryItem) returns (r: Result<InventoryItem, ResourceNotFound>)
      requires repository.Valid()
      modifies repository
      ensures repository.Valid()
      ensures repository.items == Updated(old(repository.items), id, details)
      ensures repository.nextId == old(repository.nextId)
      ensures id !in old(repository.items) ==> r == Failure(ResourceNotFound("InventoryItem", id))
      ensures id in old(repository.items) ==>
                && r == Success(ApplyDetails(old(repository.items)[id], details))
                && r.value.id == Some(id)
                && GetItemById(id) == r
    {
      var found := GetItemById(id);
      if found.Failure? {
        return Failure(found.error);
      }
      var item := ApplyDetails(found.value, details);
      var saved := repository.Save(item);
      r := Success(saved);
    }

    /**
     * `deleteItem`: fetches the record (failing with not-found, and removing
     * nothing, when `id` is absent), then deletes it: exactly that key goes.
     */
    method DeleteItem(id: int) returns (r: Outcome<ResourceNotFound>)
      requires repository.Valid()
      modifies repository
      ensures repository.Valid()
      ensures repository.nextId == old(repository.nextId)
      ensures id !in old(repository.items) ==>
                r == Fail(ResourceNotFound("InventoryItem", id)) && repository.items == old(repository.items)
      ensures id in old(repository.items) ==> r == Pass && repository.items == old(repository.items) - {id}
      ensures GetItemById(id) == Failure(ResourceNotFound("InventoryItem", id))
    {
      var found := GetItemById(id);
      if found.Failure? {
        return Fail(found.error);
      }
      repository.Delete(found.value);
      r := Pass;
    }
  }
}
