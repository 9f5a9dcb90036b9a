/** ItemInMemoryStorage: the earlier storage of items, a map from id to item
    and a counter that hands out ids. The map keeps its own copies, which
    never carry the transient booking fields. */
module ItemMemoryStore {
  import opened Common
  import opened Text
  import opened Seqs
  import opened Entities
  import ItemRepository

  datatype Store = Store(items: map<int, Item>, counter: int)
  {
    /** Every entry sits under its own id, which the counter has handed
        out, and is a stored copy. */
    ghost predicate Valid() {
      && counter >= 0
      && forall k :: k in items ==>
        && items[k].id == k && 0 < k <= counter
        && items[k].lastBooking.None? && items[k].nextBooking.None? && items[k].request.None?
    }
  }

  /** The copy the map keeps: the fields the stored entity has, with both
      booking fields null. This storage predates item requests, so no
      request is kept either. */
  function Snapshot(it: Item): (c: Item)
    ensures c.id == it.id && c.owner == it.owner && c.name == it.name
    ensures c.description == it.description && c.available == it.available
    ensures c.lastBooking.None? && c.nextBooking.None? && c.request.None?
  {
    Item(it.id, it.owner, it.name, it.description, it.available, None, None, None)
  }

  /** `findItemById` reads the entry without checking it exists, so the id
      must be present. */
  function FindItemById(s: Store, id: int): (r: Option<Item>)
    requires id in s.items
    ensures r.Some?
    ensures r.value.id == s.items[id].id && r.value.owner == s.items[id].owner
    ensures r.value.name == s.items[id].name && r.value.description == s.items[id].description
    ensures r.value.available == s.items[id].available
    ensures r.value.lastBooking.None? && r.value.nextBooking.None?
  {
    Some(Snapshot(s.items[id]))
  }

  /** The store after `addItem`, and the caller's item with its new id. */
  datatype Added = Added(store: Store, item: Item)

  function AddItem(s: Store, it: Item): (a: Added)
    ensures a.item == it.(id := s.counter + 1)
    ensures a.store.counter == s.counter + 1
    ensures a.item.id in a.store.items && a.store.items[a.item.id] == Snapshot(a.item)
    ensures forall k :: k != a.item.id ==> (k in a.store.items <==> k in s.items)
    ensures forall k :: k in s.items && k != a.item.id ==> a.store.items[k] == s.items[k]
  {
    var id := s.counter + 1;
    var stored := it.(id := id);
    Added(Store(s.items[id := Snapshot(stored)], id), stored)
  }

  /** `updateItem` puts a fresh copy under the item's id; every other entry
      stays. An id not yet present is inserted. */
  function UpdateItem(s: Store, it: Item): (r: Store)
    ensures r.counter == s.counter
    ensures it.id in r.items && r.items[it.id] == Snapshot(it)
    ensures forall k :: k != it.id ==> (k in r.items <==> k in s.items)
    ensures forall k :: k in s.items && k != it.id ==> r.items[k] == s.items[k]
  {
    Store(s.items[it.id := Snapshot(it)], s.counter)
  }

  /** A new item never lands on an existing entry, and the store stays valid. */
  lemma AddItemKeepsValid(s: Store, it: Item)
    requires s.Valid()
    ensures AddItem(s, it).item.id !in s.items
    ensures AddItem(s, it).store.Valid()
    ensures AddItem(s, it).store.items.Keys == s.items.Keys + {AddItem(s, it).item.id}
  {
  }

  /** Ids handed out by consecutive additions strictly increase. */
  lemma IdsIncrease(s: Store, a: Item, b: Item)
    ensures AddItem(AddItem(s, a).store, b).item.id > AddItem(s, a).item.id
  {
  }

  /** Updating an existing entry keeps the store valid and its key set. */
  lemma UpdateItemKeepsValid(s: Store, it: Item)
    requires s.Valid() && it.id in s.items
    ensures UpdateItem(s, it).Valid()
    ensures UpdateItem(s, it).items.Keys == s.items.Keys
  {
  }

  /** What was added reads back, minus the transient fields. */
  lemma AddThenFind(s: Store, it: Item)
    ensures var a := AddItem(s, it);
            FindItemById(a.store, a.item.id) == Some(Snapshot(it.(id := s.counter + 1)))
  {
  }

  /** `findAllItemsByUserId` reads every owner, so every entry must have one.
      The map's iteration order is unspecified; the result holds exactly the
      user's items. */
  method FindAllItemsByUserId(s: Store, userId: int) returns (r: seq<Item>)
    requires forall k :: k in s.items ==> s.items[k].owner.Some?
    ensures forall it :: it in r <==> it in s.items.Values && it.owner == Some(userId)
  {
    ValuesHaveKeys(s.items);
    r := [];
    var left := s.items.Keys;
    while left != {}
      invariant left <= s.items.Keys
      invariant forall it :: it in r ==> it in s.items.Values && it.owner == Some(userId)
      invariant forall k :: k in s.items && k !in left && s.items[k].owner == Some(userId) ==> s.items[k] in r
      decreases |left|
    {
      NonEmptyHasMember(left);
      var k :| k in left;
      if s.items[k].owner.value == userId {
        r := r + [s.items[k]];
      }
      left := left - {k};
    }
  }

  /** The in-memory search condition: available, and the lower-cased name
      or description contains the lower-cased pattern. */
  predicate MatchesLower(it: Item, pattern: string) {
    && it.available
    && (Contains(Lower(it.name), Lower(pattern)) || Contains(Lower(it.description), Lower(pattern)))
  }

  method FindItemsByPattern(s: Store, pattern: string) returns (r: seq<Item>)
    ensures forall it :: it in r <==> it in s.items.Values && MatchesLower(it, pattern)
  {
    ValuesHaveKeys(s.items);
    var p := Lower(pattern);
    r := [];
    var left := s.items.Keys;
    while left != {}
      invariant left <= s.items.Keys
      invariant forall it :: it in r ==> it in s.items.Values && MatchesLower(it, pattern)
      invariant forall k :: k in s.items && k !in left && MatchesLower(s.items[k], pattern) ==> s.items[k] in r
      decreases |left|
    {
      NonEmptyHasMember(left);
      var k :| k in left;
      var it := s.items[k];
      if it.available && (Contains(Lower(it.name), p) || Contains(Lower(it.description), p)) {
        r := r + [it];
      }
      left := left - {k};
    }
  }

  /** The in-memory search and the database's JPQL search accept the same
      items: lower- and upper-case folding find the same occurrences. */
  lemma SearchesAgree(it: Item, pattern: string)
    ensures MatchesLower(it, pattern) <==> ItemRepository.MatchesPattern(it, pattern)
  {
    UpperAndLowerSearchAgree(it.name, pattern);
    UpperAndLowerSearchAgree(it.description, pattern);
  }
}
