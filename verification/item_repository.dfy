/** `ItemRepositoryImpl`: the auction catalog, a fixed insertion-ordered map
    from item id to item, seeded once and never changed. */
module ItemRepository {
  import opened Results
  import OrderedSet

  datatype ItemEntity = ItemEntity(id: int, description: string, category: string)

  /** The seed entries, in insertion order; each entry's id is its map key. */
  const Seed: seq<ItemEntity> := [
    ItemEntity(1, "Awesome item 1", "Books"),
    ItemEntity(2, "Extraordinary item 2", "Electronics"),
    ItemEntity(3, "Fabulous item 3", "Jewelry"),
    ItemEntity(4, "Magnificent item 4", "Travel"),
    ItemEntity(5, "Quite remarkable item 5", "Toys")
  ]

  /** The first entry of `entries` with the given id. */
  function Lookup(entries: seq<ItemEntity>, id: int): (r: Option<ItemEntity>)
    ensures r.Some? ==> r.value in entries && r.value.id == id
    ensures r.None? ==> forall i :: 0 <= i < |entries| ==> entries[i].id != id
  {
    if entries == [] then None
    else if entries[0].id == id then Some(entries[0])
    else Lookup(entries[1..], id)
  }

  /** `findById`: the seeded entity for ids 1 to 5, nothing for any other id. */
  function FindById(id: int): (r: Option<ItemEntity>)
    ensures r.Some? <==> 1 <= id <= 5
    ensures r.Some? ==> r.value == Seed[id - 1]
  {
    Lookup(Seed, id)
  }

  /** `findAll`: the map's values collected into a `LinkedHashSet`. */
  function FindAll(): (r: seq<ItemEntity>)
    ensures forall i :: 0 <= i < |r| ==> r[i] in Seed
  {
    OrderedSet.FromSeq(Seed)
  }

  /** Keys are unique, each entry's id is its position plus one, and the catalog
      holds exactly the ids 1 to 5. */
  lemma SeedWellFormed()
    ensures |Seed| == 5
    ensures forall i :: 0 <= i < |Seed| ==> Seed[i].id == i + 1
    ensures OrderedSet.NoDuplicates(Seed)
  {
  }

  /** `findAll` returns the five seeded entities in insertion order. */
  lemma FindAllInSeedOrder()
    ensures FindAll() == Seed
  {
    SeedWellFormed();
    OrderedSet.FromSeqNoDuplicates(Seed);
  }

  /** An entity returned by `findAll` is the one `findById` returns for its id. */
  lemma FindByIdAgreesWithFindAll(i: int)
    requires 0 <= i < |FindAll()|
    ensures FindById(FindAll()[i].id) == Some(FindAll()[i])
  {
    FindAllInSeedOrder();
    SeedWellFormed();
  }
}
