/**
 * `InventoryItemRepository`: the keyed store of inventory items. The table is
 * a finite map from identifier to record; identifiers for new records come
 * from a counter, as a database identity column hands them out. Besides the
 * inherited `findAll`, `findById`, `save` and `delete`, the store offers two
 * derived queries, `findByCategory` and `findByNameContainingIgnoreCase`.
 */
module Repository {
  import opened Wrappers
  import opened Text
  import opened Entity

  /** No record occurs twice in `s`. */
  ghost predicate Distinct(s: seq<InventoryItem>)
  {
    forall i, j :: 0 <= i < j < |s| ==> s[i] != s[j]
  }

  /** `x` is a record of the table `m`: it is stored under its own identifier. */
  ghost predicate IsRecordOf(m: map<int, InventoryItem>, x: InventoryItem)
  {
    x.id.Some? && x.id.value in m && m[x.id.value] == x
  }

  /** `r` lists every record of the table `m` exactly once, in some order. */
  ghost predicate Enumerates(r: seq<InventoryItem>, m: map<int, InventoryItem>)
  {
    Distinct(r) && forall x :: x in r <==> IsRecordOf(m, x)
  }

  lemma DistinctCons(x: InventoryItem, s: seq<InventoryItem>)
    requires x !in s && Distinct(s)
    ensures Distinct([x] + s)
  {
  }

  lemma DistinctTail(s: seq<InventoryItem>)
    requires s != [] && Distinct(s)
    ensures s[0] !in s[1..] && Distinct(s[1..])
  {
  }

  /** The records of `s` that satisfy `keep`, in their order in `s`. */
  function Filter(s: seq<InventoryItem>, keep: InventoryItem -> bool): (r: seq<InventoryItem>)
    ensures forall x :: x in r <==> x in s && keep(x)
    ensures |r| <= |s|
  {
    if s == [] then []
    else if keep(s[0]) then [s[0]] + Filter(s[1..], keep)
    else Filter(s[1..], keep)
  }

  /** Filtering a list without repetitions yields a list without repetitions. */
  lemma {:induction false} FilterDistinct(s: seq<InventoryItem>, keep: InventoryItem -> bool)
    requires Distinct(s)
    ensures Distinct(Filter(s, keep))
  {
    if s != [] {
      DistinctTail(s);
      FilterDistinct(s[1..], keep);
      if keep(s[0]) {
        DistinctCons(s[0], Filter(s[1..], keep));
      }
    }
  }

  /** Filtering with a condition that every record meets keeps the whole sequence. */
  lemma {:induction false} FilterKeepsAll(s: seq<InventoryItem>, keep: InventoryItem -> bool)
    requires forall x :: x in s ==> keep(x)
    ensures Filter(s, keep) == s
  {
    if s != [] {
      FilterKeepsAll(s[1..], keep);
    }
  }

  class InventoryItemRepository {
    /** The table: identifier to stored record. */
    var items: map<int, InventoryItem>
    /** The identifier the next inserted record receives (the identity counter). */
    var nextId: int

    /**
     * Every record carries its own key, and every key was handed out by the
     * counter, which starts at 1.
     */
    ghost predicate Valid()
      reads this
    {
      && 1 <= nextId
      && forall k :: k in items ==> 1 <= k < nextId && items[k].id == Some(k)
    }

    constructor ()
      ensures Valid()
      ensures items == map[] && nextId == 1
    {
      items := map[];
      nextId := 1;
    }

    /** `findById`: the stored record under `id`, if any. */
    function FindById(id: int): (r: Option<InventoryItem>)
      reads this
      requires Valid()
      ensures r.Some? <==> id in items
      ensures r.Some? ==> IsRecordOf(items, r.value) && r.value.id == Some(id)
    {
      if id in items then Some(items[id]) else None
    }

    /** `findAll`: every stored record once; callers may not rely on the order. */
    method FindAll() returns (r: seq<InventoryItem>)
      requires Valid()
      ensures Enumerates(r, items)
    {
      r := [];
      var id := 1;
      while id < nextId
        invariant 1 <= id <= nextId
        invariant Distinct(r)
        invariant forall i :: 0 <= i < |r| ==> IsRecordOf(items, r[i]) && r[i].id.value < id
        invariant forall k :: k in items && k < id ==> items[k] in r
      {
        if id in items {
          DistinctCons(items[id], r);
          r := [items[id]] + r;
        }
        id := id + 1;
      }
    }

    /** `findByCategory`: the stored records whose category equals `category` exactly. */
    method FindByCategory(category: string) returns (r: seq<InventoryItem>)
      requires Valid()
      ensures Distinct(r)
      ensures forall x :: x in r <==> IsRecordOf(items, x) && x.category == category
      ensures (forall k :: k in items ==> items[k].category != category) ==> r == []
    {
      var all := FindAll();
      r := Filter(all, (x: InventoryItem) => x.category == category);
      FilterDistinct(all, (x: InventoryItem) => x.category == category);
      if r != [] {
        assert r[0] in r;
        var k := r[0].id.value;
        assert k in items && items[k].category == category;
        assert !(forall k :: k in items ==> items[k].category != category);
      }
    }

    /**
     * `findByNameContainingIgnoreCase`: the stored records whose name contains
     * `fragment`, ignoring case; the empty fragment selects every record.
     */
    method FindByNameContainingIgnoreCase(fragment: string) returns (r: seq<InventoryItem>)
      requires Valid()
      ensures Distinct(r)
      ensures forall x :: x in r <==> IsRecordOf(items, x) && ContainsIgnoreCase(x.name, fragment)
      ensures fragment == "" ==> Enumerates(r, items)
    {
      var all := FindAll();
      r := Filter(all, (x: InventoryItem) => ContainsIgnoreCase(x.name, fragment));
      FilterDistinct(all, (x: InventoryItem) => ContainsIgnoreCase(x.name, fragment));
      if fragment == "" {
        forall x | x in all ensures ContainsIgnoreCase(x.name, fragment) {
          EmptyFragmentMatches(x.name);
        }
        FilterKeepsAll(all, (x: InventoryItem) => ContainsIgnoreCase(x.name, fragment));
      }
    }

    /**
     * `save`: a record whose identifier is stored replaces that record; any
     * other record (no identifier, or one the table does not hold) is
     * inserted under a fresh identifier from the counter. The saved record
     * is returned.
     */
    method Save(item: InventoryItem) returns (saved: InventoryItem)
      requires Valid()
      modifies this
      ensures Valid()
      ensures saved.id.Some? && items == old(items)[saved.id.value := saved]
      ensures item.id.Some? && item.id.value in old(items) ==>
                saved == item && nextId == old(nextId)
      ensures !(item.id.Some? && item.id.value in old(items)) ==>
                && saved == item.(id := Some(old(nextId)))
                && old(nextId) !in old(items)
                && nextId == old(nextId) + 1
    {
      if item.id.Some? && item.id.value in items {
        saved := item;
        items := items[item.id.value := saved];
      } else {
        saved := item.(id := Some(nextId));
        items := items[nextId := saved];
        nextId := nextId + 1;
      }
    }

    /**
     * `delete`: removes the record stored under the given record's identifier;
     * a record without an identifier, or one no longer stored, changes nothing.
     */
    method Delete(item: InventoryItem)
      requires Valid()
      modifies this
      ensures Valid()
      ensures items == if item.id.Some? then old(items) - {item.id.value} else old(items)
      ensures nextId == old(nextId)
    {
      if item.id.Some? {
        items := items - {item.id.value};
      }
    }
  }
}
