# Inventory CRUD core, modelled in Dafny

A model of the inventory backend's item management: the keyed item store
(`InventoryItemRepository`), the service that enforces existence before
update and delete (`InventoryService`), the entity/response conversions
(`InventoryItemResponse`) and the REST handlers (`InventoryController`).

| file | module | models |
|---|---|---|
| wrappers.dfy | `Wrappers` | `Option`, `Result`, `Outcome`: Java's null, thrown exceptions and `void` |
| text.dfy | `Text` | the ignore-case substring match of `findByNameContainingIgnoreCase` |
| model.dfy | `Entity` | the `InventoryItem` entity as a value |
| repository.dfy | `Repository` | class `InventoryItemRepository`: a `map<int, InventoryItem>` plus the identity counter |
| service.dfy | `Service` | class `InventoryService` and `ResourceNotFound` |
| dto.dfy | `Dto` | `InventoryItemResponse`, `FromEntity`, `ToEntity` |
| controller.dfy | `Controller` | class `InventoryController`, replies and their statuses, a client `WidgetLifecycle` |

The store is a class whose `items` field maps identifiers to records. Its
invariant `Valid()` says that every record is stored under its own
identifier, so there is at most one record per id. It also says that every
key was handed out by the counter `nextId`, which starts at 1. `Save` and
`Delete` reassign the map. `FindAll` scans the identifier range and is
proved to list every stored record exactly once. Its contract leaves the
order open, as JPA does. The two derived queries filter that list.

The service and controller methods are specified by the new contents of the
table in terms of the old contents. The specification functions behind them
(`ApplyDetails`, `Updated`, `Filter`, `FromEntity`, `ToEntity`, `Responses`)
carry lemmas for idempotence, round trips and injectivity.

Errors are values. `ResourceNotFoundException("InventoryItem", id)` is
`Failure(ResourceNotFound("InventoryItem", id))`, and it propagates
unchanged through the controller.

## Model

| member | source | states |
|---|---|---|
| Repository.InventoryItemRepository.FindById | src/main/java/com/inventory/management/repository/InventoryItemRepository.java:10 | the lookup succeeds exactly when the id is stored and then yields the record stored under that id, which carries that id |
| Repository.InventoryItemRepository.FindAll | src/main/java/com/inventory/management/repository/InventoryItemRepository.java:10 | the result lists every stored record exactly once and nothing else |
| Repository.InventoryItemRepository.Save | src/main/java/com/inventory/management/repository/InventoryItemRepository.java:10 | a record whose id is stored replaces that entry; any other record is inserted under a fresh id not in the table (see Left out); every other entry is unchanged and the store invariant is kept |
| Repository.InventoryItemRepository.Delete | src/main/java/com/inventory/management/repository/InventoryItemRepository.java:10 | exactly the key of the given record is removed; a record without an id, or one not stored, changes nothing |
| Repository.InventoryItemRepository.FindByCategory | src/main/java/com/inventory/management/repository/InventoryItemRepository.java:12 | a record is in the result iff it is stored and its category equals the argument exactly; no repeats; empty when no stored record has that category; the store is not modified |
| Repository.InventoryItemRepository.FindByNameContainingIgnoreCase | src/main/java/com/inventory/management/repository/InventoryItemRepository.java:14 | a record is in the result iff it is stored and its upper-cased name contains the upper-cased fragment; no repeats; the empty fragment yields every stored record |
| Repository.Filter | src/main/java/com/inventory/management/repository/InventoryItemRepository.java:12-14 | a record is kept iff it is in the input and satisfies the condition; the result is no longer than the input |
| Repository.FilterDistinct | src/main/java/com/inventory/management/repository/InventoryItemRepository.java:12-14 | filtering a list without repeats gives a list without repeats |
| Repository.FilterKeepsAll | src/main/java/com/inventory/management/repository/InventoryItemRepository.java:14 | a condition that every element meets keeps the whole list, in order |
| Text.EmptyFragmentMatches | src/main/java/com/inventory/management/repository/InventoryItemRepository.java:14 | the empty fragment matches every name |
| Text.FragmentCaseIrrelevant | src/main/java/com/inventory/management/repository/InventoryItemRepository.java:14 | upper-casing the fragment first does not change the match |
| Text.NameCaseIrrelevant | src/main/java/com/inventory/management/repository/InventoryItemRepository.java:14 | upper-casing the name first does not change the match |
| Text.LaptopMatchesLap | src/main/java/com/inventory/management/repository/InventoryItemRepository.java:14 | the fragment "lap" matches the name "Laptop" |
| Service.InventoryService.GetAllItems | src/main/java/com/inventory/management/service/InventoryService.java:18-20 | the result lists every stored record exactly once, as findAll does |
| Service.InventoryService.GetItemById | src/main/java/com/inventory/management/service/InventoryService.java:22-25 | returns the stored record when the id is present and fails with ResourceNotFound("InventoryItem", id) when it is absent |
| Service.InventoryService.GetItemsByCategory | src/main/java/com/inventory/management/service/InventoryService.java:27-29 | the result is findByCategory's: exactly the stored records of that category, without repeats |
| Service.InventoryService.SearchItemsByName | src/main/java/com/inventory/management/service/InventoryService.java:31-33 | the result is findByNameContainingIgnoreCase's: exactly the stored records whose name matches, without repeats |
| Service.InventoryService.CreateItem | src/main/java/com/inventory/management/service/InventoryService.java:35-38 | the saved record is returned and is then found under its id; an item whose id is stored replaces that record and is returned unchanged; any other item gains one fresh id with its other fields unchanged, and then every existing entry is kept
| Service.InventoryService.UpdateItem | src/main/java/com/inventory/management/service/InventoryService.java:40-51 | an absent id fails with ResourceNotFound and leaves the table unchanged; a present id gets name, description, quantity, price and category from the details, keeps its own id and timestamps, and is returned; no other entry changes |
| Service.InventoryService.DeleteItem | src/main/java/com/inventory/management/service/InventoryService.java:53-57 | an absent id fails with ResourceNotFound and leaves the table unchanged; a present id loses exactly its entry; afterwards getItemById(id) fails with ResourceNotFound |
| Service.ApplyDetails | src/main/java/com/inventory/management/service/InventoryService.java:44-48 | the five setters: the result keeps the record's id, createdAt and updatedAt, and agrees with the details on every other field (name, description, quantity, price, category) |
| Service.ApplyDetailsIgnoresIdentity | src/main/java/com/inventory/management/service/InventoryService.java:44-48 | the id and timestamps carried by the details have no effect on the update |
| Service.ApplyDetailsIdempotent | src/main/java/com/inventory/management/service/InventoryService.java:44-50 | applying the same details twice gives the same record as applying them once |
| Service.UpdateIdempotent | src/main/java/com/inventory/management/service/InventoryService.java:41-50 | repeating updateItem with the same id and details leaves the same table |
| Dto.FromEntityInjective | src/main/java/com/inventory/management/dto/InventoryItemResponse.java:25-36 | fromEntity carries every one of the eight fields: two items with equal responses are equal |
| Dto.ToEntity | src/main/java/com/inventory/management/dto/InventoryItemResponse.java:38-47 | toEntity never sets createdAt or updatedAt |
| Dto.FromEntity | src/main/java/com/inventory/management/dto/InventoryItemResponse.java:25-36 | a fresh response carrying all eight fields of the item: its createdAt and updatedAt are the item's, and toEntity of it gives back the item with only the timestamps unset |
| Dto.FromEntityToEntity | src/main/java/com/inventory/management/dto/InventoryItemResponse.java:25-47 | fromEntity(toEntity(response)) equals the response except for the timestamps, which are unset |
| Controller.Responses | src/main/java/com/inventory/management/controller/InventoryController.java:25-28 | the stream map(fromEntity) of the list handlers: one response per item, in the same order, each carrying its item's timestamps and converting back through toEntity to the item with only the timestamps unset |
| Controller.ResponsesInjective | src/main/java/com/inventory/management/controller/InventoryController.java:24-54 | the list handlers' fromEntity mapping loses nothing: equal response lists come from equal item lists |
| Controller.InventoryController.GetAllItems | src/main/java/com/inventory/management/controller/InventoryController.java:23-30 | answers 200 with fromEntity of each record of some enumeration of the store, one response per item, in that order |
| Controller.InventoryController.GetItemById | src/main/java/com/inventory/management/controller/InventoryController.java:32-36 | answers 200 with fromEntity of the stored record when the id is present; otherwise the service's ResourceNotFound propagates and there is no 200 |
| Controller.InventoryController.GetItemsByCategory | src/main/java/com/inventory/management/controller/InventoryController.java:38-45 | answers 200 with fromEntity of each record of the service's category list, in order |
| Controller.InventoryController.SearchItemsByName | src/main/java/com/inventory/management/controller/InventoryController.java:47-54 | answers 200 with fromEntity of each record of the service's name-search list, in order |
| Controller.NewEntity | src/main/java/com/inventory/management/controller/InventoryController.java:58-63 | the fresh entity of the create handler (the update handler builds the same at lines 75-80): no id, no timestamps, and exactly the request's name, description, quantity, price and category |
| Controller.InventoryController.CreateItem | src/main/java/com/inventory/management/controller/InventoryController.java:56-68 | stores an entity with the request's five fields, no caller id and no timestamps, under a fresh id; answers 201 with it; a store whose records all pass validation keeps that property |
| Controller.InventoryController.UpdateItem | src/main/java/com/inventory/management/controller/InventoryController.java:70-84 | passes the path id and an entity with exactly the request's five fields to the service; answers 200 with a body that has the path id, the request's five fields and the old createdAt; an absent id yields ResourceNotFound and no change |
| Controller.InventoryController.DeleteItem | src/main/java/com/inventory/management/controller/InventoryController.java:86-90 | removes exactly that id and answers 204 with no body; an absent id yields ResourceNotFound and no change |

## Behaviour of the inherited store operations

- The handlers are mounted under `/api/inventory`
  (src/main/java/com/inventory/management/controller/InventoryController.java:17).
- `delete` of a record that is no longer stored does not fail. The
  inherited `SimpleJpaRepository.delete` returns silently, and the model
  follows that. The service's earlier fetch is what produces not-found.

## Left out

- Timestamps: `createdAt` and `updatedAt` are carried unchanged. They are
  set by the `InventoryItem` entity's persistence lifecycle and a clock,
  which are not part of this model. So "createdAt == updatedAt after create"
  and "updatedAt advances on update" are not stated.
- Numeric widths: the `Long` identifier counter is unbounded, so 64-bit
  overflow of ids is not modelled. `Integer` quantity is an unbounded
  integer. `BigDecimal` price is an integer number of cents; no arithmetic
  is done on either.
- Null fields: only the id, the description and the timestamps can be
  absent. A null name, category, quantity or price is not modelled.
- Case folding is ASCII only. Full Unicode upper-casing in the database's
  `upper()` is not modelled.
- `@Transactional`, rollback and races between the existence check and the
  write are not modelled. Each operation is one atomic step on the table.
- Storage faults (an unreachable database) are not modelled.
- Bean validation behind `@Valid`: `InventoryItemRequest` is not part of this
  model. The handlers take `Acceptable(request)` as a precondition, with the
  rules assumed for `InventoryItemRequest`, which is not modelled:
  non-empty name, non-negative quantity and price. The 400 reply that the framework produces before a handler runs
  is not modelled.
- The mapping of `ResourceNotFoundException` to HTTP 404 happens in an
  exception handler that is not part of this model. Not-found stays an
  error value.
- Entity identity: `updateItem` mutates the managed entity it fetched
  before saving it. The model applies the five setters to a value, so
  aliasing of managed entities is not captured.
- The client script (`app.js`), the security configuration, the
  authentication controller, the start-up data initializer and the view
  controller hold no inventory logic and are not modelled.
- Repository.InventoryItemRepository.Save: for a record whose id is not
  stored, the model inserts it under a fresh id. That is an assumption about
  the persistence provider's version. Merging a detached entity with an
  unknown generated id inserts it up to Hibernate 6.5; from 6.6 on it throws
  an optimistic-lock exception. The entity mapping and the build file are not
  part of this model. The controller never reaches this case, because it
  builds entities without an id. `InventoryService.createItem` does reach it
  when its caller passes such an id.
- Service.InventoryService.GetAllItems: it promises what `findAll` promises
  (every stored record once), not identity with one particular `findAll`
  result. The store's order is unspecified, so the call cannot be named.
- Service.InventoryService.GetItemsByCategory: like GetAllItems, it promises
  `findByCategory`'s contract rather than identity with its result.
- Service.InventoryService.SearchItemsByName: like GetAllItems, it promises
  `findByNameContainingIgnoreCase`'s contract rather than identity with its
  result.
