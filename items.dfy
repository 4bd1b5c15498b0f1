/** The in-memory item service: a process-wide dictionary from an integer key
    to an item record, read, created, replaced and deleted by key. */
module Items {
  import opened Common

  /** An item as `model_dump()` stores it. The price is a floating-point
      number in the service; it is only stored and returned, so it is kept
      abstract here. An omitted or null description is `None`. */
  datatype Item<Price> = Item(name: string, price: Price, description: Option<string>)

  /** The dictionary `db`, as an explicitly constructed store object. */
  class ItemStore<Price> {
    var db: map<int, Item<Price>>

    constructor ()
      ensures db == map[]
    {
      db := map[];
    }

    /** GET: the stored item, or NotFound. */
    method ReadData(itemId: int) returns (r: Outcome<Item<Price>>)
      ensures itemId in db <==> r.Ok?
      ensures itemId in db ==> r.value == db[itemId]
      ensures itemId !in db ==> r == NotFound
    {
      if itemId in db {
        return Ok(db[itemId]);
      }
      return NotFound;
    }

    /** POST: AlreadyExists on an occupied key, whatever the payload, and the
        dictionary is left as it was; otherwise the item is stored under
        exactly that key and returned. */
    method CreateData(itemId: int, item: Item<Price>) returns (r: Outcome<Item<Price>>)
      modifies this
      ensures itemId in old(db) ==> r == AlreadyExists && db == old(db)
      ensures itemId !in old(db) ==> r == Ok(item) && db == old(db)[itemId := item]
      ensures db.Keys == old(db).Keys + {itemId}
      ensures forall k :: k in old(db) ==> k in db && db[k] == old(db)[k]
    {
      if itemId in db {
        return AlreadyExists;
      }
      db := db[itemId := item];
      r := Ok(db[itemId]);
    }

    /** PUT: a full replace. NotFound on an absent key with the dictionary
        unchanged; otherwise the record is overwritten as a whole, so a field
        the request omitted takes its default rather than its old value. The
        set of keys is never changed. */
    method UpdateData(itemId: int, item: Item<Price>) returns (r: Outcome<Item<Price>>)
      modifies this
      ensures itemId !in old(db) ==> r == NotFound && db == old(db)
      ensures itemId in old(db) ==> r == Ok(item) && db == old(db)[itemId := item]
      ensures db.Keys == old(db).Keys
    {
      if itemId !in db {
        return NotFound;
      }
      db := db[itemId := item];
      r := Ok(db[itemId]);
    }

    /** DELETE: NotFound on an absent key with the dictionary unchanged;
        otherwise exactly that key is removed. The answer carries the key,
        which the service echoes in its message. */
    method DeleteData(itemId: int) returns (r: Outcome<int>)
      modifies this
      ensures itemId !in old(db) ==> r == NotFound && db == old(db)
      ensures itemId in old(db) ==> r == Ok(itemId) && db == old(db) - {itemId}
      ensures itemId !in db
      ensures forall k :: k in old(db) && k != itemId ==> k in db && db[k] == old(db)[k]
    {
      if itemId !in db {
        return NotFound;
      }
      db := db - {itemId};
      r := Ok(itemId);
    }
  }

  /** A create on a fresh key followed by a read of that key returns exactly
      the item that was sent. */
  method CreateThenRead<Price>(store: ItemStore<Price>, itemId: int, item: Item<Price>)
    returns (created: Outcome<Item<Price>>, read: Outcome<Item<Price>>)
    requires itemId !in store.db
    modifies store
    ensures created == Ok(item) && read == Ok(item)
    ensures store.db == old(store.db)[itemId := item]
  {
    created := store.CreateData(itemId, item);
    read := store.ReadData(itemId);
  }

  /** A second create on the same key is refused, whatever its payload, and
      the first item stays. */
  method CreateTwice<Price>(store: ItemStore<Price>, itemId: int, first: Item<Price>, second: Item<Price>)
    returns (r1: Outcome<Item<Price>>, r2: Outcome<Item<Price>>)
    requires itemId !in store.db
    modifies store
    ensures r1 == Ok(first) && r2 == AlreadyExists
    ensures store.db == old(store.db)[itemId := first]
  {
    r1 := store.CreateData(itemId, first);
    r2 := store.CreateData(itemId, second);
  }

  /** A replace that omits the description drops the old description. */
  method ReplaceDropsDescription<Price>(store: ItemStore<Price>, itemId: int, name: string, price: Price)
    returns (r: Outcome<Item<Price>>, read: Outcome<Item<Price>>)
    requires itemId in store.db && store.db[itemId].description.Some?
    modifies store
    ensures r.Ok? && read.Ok? && read.value.description == None
    ensures read.value.name == name && read.value.price == price
  {
    r := store.UpdateData(itemId, Item(name, price, None));
    read := store.ReadData(itemId);
  }

  /** Deleting the same key twice: the first call removes it, the second
      answers NotFound and changes nothing. */
  method DeleteTwice<Price>(store: ItemStore<Price>, itemId: int)
    returns (r1: Outcome<int>, r2: Outcome<int>)
    requires itemId in store.db
    modifies store
    ensures r1 == Ok(itemId) && r2 == NotFound
    ensures store.db == old(store.db) - {itemId}
  {
    r1 := store.DeleteData(itemId);
    r2 := store.DeleteData(itemId);
  }
}
