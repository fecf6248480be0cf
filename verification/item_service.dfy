/** `ItemServiceImpl`: catalog queries returning the API view of an item,
    which keeps the id and description and drops the category. */
module ItemService {
  import opened Results
  import opened Text
  import opened Exceptions
  import OrderedSet
  import ItemRepository

  datatype Item = Item(id: int, description: string)

  /** The item mapper: a field copy of id and description. */
  function ToItem(e: ItemRepository.ItemEntity): (it: Item)
    ensures it.id == e.id && it.description == e.description
  {
    Item(e.id, e.description)
  }

  /** `ITEM_NOT_EXIST_MSG` formatted with the id. */
  function ItemNotExistMessage(id: int): string {
    "Item does not exist for identifier : " + ShowInt(id)
  }

  /** `getItem`: the catalog item with this id, or a not-found failure. */
  function GetItem(id: int): (r: Result<Item, Exception>)
    ensures r.Ok? <==> ItemRepository.FindById(id).Some?
    ensures r.Ok? ==> r.value.id == id && r.value.description == ItemRepository.FindById(id).value.description
    ensures r.Err? ==> r.error == ResourceNotFound(ItemNotExistMessage(id), None)
  {
    match ItemRepository.FindById(id)
    case Some(e) => Ok(ToItem(e))
    case None => Err(ResourceNotFound(ItemNotExistMessage(id), None))
  }

  /** `getAllItems`: the mapped entities collected into a `LinkedHashSet`. */
  function GetAllItems(): (r: seq<Item>)
    ensures OrderedSet.NoDuplicates(r)
  {
    OrderedSet.FromSeq(OrderedSet.MapSeq(ToItem, ItemRepository.FindAll()))
  }

  /** `getAllItems` is the mapped seed, in repository order and of the same count. */
  lemma GetAllItemsIsMappedSeed()
    ensures GetAllItems() == OrderedSet.MapSeq(ToItem, ItemRepository.Seed)
  {
    ItemRepository.FindAllInSeedOrder();
    ItemRepository.SeedWellFormed();
    var m := OrderedSet.MapSeq(ToItem, ItemRepository.Seed);
    assert OrderedSet.NoDuplicates(m) by {
      forall i, j | 0 <= i < j < |m| ensures m[i] != m[j] {
        assert m[i].id == i + 1 && m[j].id == j + 1;
      }
    }
    OrderedSet.FromSeqNoDuplicates(m);
  }

  /** The listed items are exactly what `getItem` returns for the ids 1 to 5, in that order. */
  lemma GetAllItemsAgreesWithGetItem()
    ensures |GetAllItems()| == 5
    ensures forall i :: 0 <= i < 5 ==> GetItem(i + 1) == Ok(GetAllItems()[i])
  {
    GetAllItemsIsMappedSeed();
    ItemRepository.SeedWellFormed();
  }

  /** An id is found exactly when it is among the listed items. */
  lemma GetItemListed(id: int)
    ensures GetItem(id).Ok? <==> exists i :: 0 <= i < |GetAllItems()| && GetAllItems()[i].id == id
  {
    var items := GetAllItems();
    GetAllItemsAgreesWithGetItem();
    if GetItem(id).Ok? {
      assert 1 <= id <= 5;
      assert GetItem(id) == Ok(items[id - 1]);
      assert items[id - 1].id == id;
    }
    if exists i :: 0 <= i < |items| && items[i].id == id {
      var i :| 0 <= i < |items| && items[i].id == id;
      assert GetItem(i + 1) == Ok(items[i]);
      assert i + 1 == id;
    }
  }
}
