/**
 * `InventoryController`: the REST handlers under `/api/inventory`. Each
 * builds the service's arguments, delegates, and wraps the result in a reply
 * with the success status (200, 201 or 204). A not-found error from the
 * service propagates unchanged; no success reply is produced for it.
 */
module Controller {
  import opened Wrappers
  import opened Text
  import opened Entity
  import opened Repository
  import opened Service
  import opened Dto

  const OK := 200
  const CREATED := 201
  const NO_CONTENT := 204

  /** An HTTP reply with a success status and its body. */
  datatype Reply<T> = Reply(status: int, body: T)

  /** The request body of create and update: the five mutable fields. */
  datatype InventoryItemRequest = InventoryItemRequest(
    name: string,
    description: Option<string>,
    quantity: int,
    price: int,
    category: string)

  /**
   * What bean validation (`@Valid`) lets through to a handler: a non-empty
   * name and a quantity and price that are not negative.
   */
  predicate Acceptable(request: InventoryItemRequest)
  {
    request.name != "" && request.quantity >= 0 && request.price >= 0
  }

  /** Every stored record has the shape `Acceptable` demands of requests. */
  ghost predicate AtRest(m: map<int, InventoryItem>)
  {
    forall k :: k in m ==> m[k].name != "" && m[k].quantity >= 0 && m[k].price >= 0
  }

  /** A `new InventoryItem()` filled with the request's five fields; no identifier, no timestamps. */
  function NewEntity(request: InventoryItemRequest): (item: InventoryItem)
    ensures item.id.None? && item.createdAt.None? && item.updatedAt.None?
    ensures item.name == request.name && item.description == request.description
    ensures item.quantity == request.quantity && item.price == request.price
    ensures item.category == request.category
  {
    InventoryItem(None, request.name, request.description, request.quantity, request.price,
                  request.category, None, None)
  }

  /**
   * The stream `map(InventoryItemResponse::fromEntity)` of the list handlers:
   * one response per item, in the same order, each converting back to its item.
   */
  function Responses(items: seq<InventoryItem>): (r: seq<InventoryItemResponse>)
    ensures |r| == |items|
    ensures forall i :: 0 <= i < |r| ==>
              ToEntity(r[i]) == items[i].(createdAt := None, updatedAt := None)
              && r[i].createdAt == items[i].createdAt && r[i].updatedAt == items[i].updatedAt
  {
    seq(|items|, i requires 0 <= i < |items| => FromEntity(items[i]))
  }

  /** The list replies lose nothing: different item lists give different response lists. */
  lemma ResponsesInjective(a: seq<InventoryItem>, b: seq<InventoryItem>)
    requires Responses(a) == Responses(b)
    ensures a == b
  {
    assert |a| == |Responses(a)| == |Responses(b)| == |b|;
    forall i | 0 <= i < |a| ensures a[i] == b[i] {
      assert Responses(a)[i] == FromEntity(a[i]) && Responses(b)[i] == FromEntity(b[i]);
      FromEntityInjective(a[i], b[i]);
    }
  }

  class InventoryController {
    const service: InventoryService

    constructor (service: InventoryService)
      ensures this.service == service
    {
      this.service := service;
    }

    /** `GET /api/inventory`: 200 with one response per stored record. */
    method GetAllItems() returns (reply: Reply<seq<InventoryItemResponse>>)
      requires service.repository.Valid()
      ensures reply.status == OK
      ensures exists items :: Enumerates(items, service.repository.items) && reply.body == Responses(items)
    {
      var items := service.GetAllItems();
      reply := Reply(OK, Responses(items));
      assert Enumerates(items, service.repository.items) && reply.body == Responses(items);
    }

    /** `GET /api/inventory/{id}`: 200 with the stored record, or the service's not-found error. */
    function GetItemById(id: int): (r: Result<Reply<InventoryItemResponse>, ResourceNotFound>)
      reads service.repository
      requires service.repository.Valid()
      ensures r.Success? <==> id in service.repository.items
      ensures r.Success? ==> r.value == Reply(OK, FromEntity(service.repository.items[id]))
      ensures r.Failure? ==> r.error == ResourceNotFound("InventoryItem", id)
    {
      match service.GetItemById(id)
      case Success(item) => Success(Reply(OK, FromEntity(item)))
      case Failure(e) => Failure(e)
    }

    /** `GET /api/inventory/category/{category}`: 200 with the records of exactly that category. */
    method GetItemsByCategory(category: string) returns (reply: Reply<seq<InventoryItemResponse>>)
      requires service.repository.Valid()
      ensures reply.status == OK
      ensures exists items ::
                && Distinct(items)
                && (forall x :: x in items <==> IsRecordOf(service.repository.items, x) && x.category == category)
                && reply.body == Responses(items)
    {
      var items := service.GetItemsByCategory(category);
      reply := Reply(OK, Responses(items));
      assert Distinct(items)
          && (forall x :: x in items <==> IsRecordOf(service.repository.items, x) && x.category == category)
          && reply.body == Responses(items);
    }

    /** `GET /api/inventory/search?name=`: 200 with the records whose name contains `name`, ignoring case. */
    method SearchItemsByName(name: string) returns (reply: Reply<seq<InventoryItemResponse>>)
      requires service.repository.Valid()
      ensures reply.status == OK
      ensures exists items ::
                && Distinct(items)
                && (forall x :: x in items <==> IsRecordOf(service.repository.items, x) && ContainsIgnoreCase(x.name, name))
                && reply.body == Responses(items)
    {
      var items := service.SearchItemsByName(name);
      reply := Reply(OK, Responses(items));
      assert Distinct(items)
          && (forall x :: x in items <==> IsRecordOf(service.repository.items, x) && ContainsIgnoreCase(x.name, name))
          && reply.body == Responses(items);
    }

    /**
     * `POST /api/inventory`: stores a new item built from the request's five
     * fields under a fresh identifier and answers 201 with it.
     */
    method CreateItem(request: InventoryItemRequest) returns (reply: Reply<InventoryItemResponse>)
      requires service.repository.Valid()
      requires Acceptable(request)
      modifies service.repository
      ensures service.repository.Valid()
      ensures reply.status == CREATED
      ensures reply.body.id.Some? && reply.body.id.value !in old(service.repository.items)
      ensures var k := reply.body.id.value;
                && service.repository.items == old(service.repository.items)[k := NewEntity(request).(id := Some(k))]
                && reply.body == FromEntity(service.repository.items[k])
      ensures AtRest(old(service.repository.items)) ==> AtRest(service.repository.items)
    {
      var item := NewEntity(request);
      var created := service.CreateItem(item);
      reply := Reply(CREATED, FromEntity(created));
    }

    /**
     * `PUT /api/inventory/{id}`: overwrites the stored record's five mutable
     * fields with the request's and answers 200 with it; an absent `id`
     * yields the service's not-found error and changes nothing.
     */
    method UpdateItem(id: int, request: InventoryItemRequest) returns (r: Result<Reply<InventoryItemResponse>, ResourceNotFound>)
      requires service.repository.Valid()
      requires Acceptable(request)
      modifies service.repository
      ensures service.repository.Valid()
      ensures service.repository.items == Updated(old(service.repository.items), id, NewEntity(request))
      ensures id !in old(service.repository.items) ==> r == Failure(ResourceNotFound("InventoryItem", id))
      ensures id in old(service.repository.items) ==>
                && r == Success(Reply(OK, FromEntity(service.repository.items[id])))
                && r.value.body.id == Some(id)
                && r.value.body.name == request.name && r.value.body.description == request.description
                && r.value.body.quantity == request.quantity && r.value.body.price == request.price
                && r.value.body.category == request.category
                && r.value.body.createdAt == old(service.repository.items)[id].createdAt
      ensures AtRest(old(service.repository.items)) ==> AtRest(service.repository.items)
    {
      var details := NewEntity(request);
      var updated := service.UpdateItem(id, details);
      match updated
      case Success(item) => r := Success(Reply(OK, FromEntity(item)));
      case Failure(e) => r := Failure(e);
    }

    /** `DELETE /api/inventory/{id}`: removes the record and answers 204 with no body. */
    method DeleteItem(id: int) returns (r: Result<Reply<()>, ResourceNotFound>)
      requires service.repository.Valid()
      modifies service.repository
      ensures service.repository.Valid()
      ensures id !in old(service.repository.items) ==>
                r == Failure(ResourceNotFound("InventoryItem", id))
                && service.repository.items == old(service.repository.items)
      ensures id in old(service.repository.items) ==>
                r == Success(Reply(NO_CONTENT, ())) && service.repository.items == old(service.repository.items) - {id}
      ensures AtRest(old(service.repository.items)) ==> AtRest(service.repository.items)
    {
      var outcome := service.DeleteItem(id);
      match outcome
      case Pass => r := Success(Reply(NO_CONTENT, ()));
      case Fail(e) => r := Failure(e);
    }
  }

  /**
   * A client of the handlers: create a widget, change its quantity, delete it,
   * and find it gone.
   */
  method WidgetLifecycle()
  {
    var repository := new InventoryItemRepository();
    var service := new InventoryService(repository);
    var controller := new InventoryController(service);

    var created := controller.CreateItem(InventoryItemRequest("Widget", None, 10, 250, "Tools"));
    assert created.status == CREATED && created.body.quantity == 10 && created.body.price == 250;
    var id := created.body.id.value;

    var updated := controller.UpdateItem(id, InventoryItemRequest("Widget", None, 5, 250, "Tools"));
    assert updated.Success? && updated.value.status == OK && updated.value.body.quantity == 5;

    var deleted := controller.DeleteItem(id);
    assert deleted == Success(Reply(NO_CONTENT, ()));
    assert controller.GetItemById(id) == Failure(ResourceNotFound("InventoryItem", id));
  }
}
