/** `AuctionController`: the request-level rules in front of the ledger and
    the catalog. Each handler is a function from the ledger state and the
    request to the new state and either a response body or the exception the
    handler throws. */
module AuctionController {
  import opened Results
  import opened Text
  import opened Exceptions
  import OrderedSet
  import ApiErrors
  import ControllerUtils
  import ItemRepository
  import opened ItemService
  import opened BidRepository
  import opened BidService

  const EMPTY_ITEM_ID: string := "Item id must be specified"
  const ITEM_ID_MISMATCH: string := "Item id mismatch between request path and body"
  const BID_CREATION_FAILED: string := "Failed to create bid : "
  const EMPTY_USER_ID: string := "User id must be specified"
  const EMPTY_AMOUNT: string := "Amount must be specified"
  const INVALID_AMOUNT: string := "Amount must be greater than zero"

  /** "Item id : %s, does not conform to the required format" with the raw path text. */
  function InvalidItemIdFormat(itemIdStr: string): string {
    "Item id : " + itemIdStr + ", does not conform to the required format"
  }

  /** "Item id : %s, is invalid". */
  function InvalidItemId(id: int): string {
    "Item id : " + ShowInt(id) + ", is invalid"
  }

  /** "Item id : %s, does not relate to an existing item". */
  function ItemNotExist(id: int): string {
    "Item id : " + ShowInt(id) + ", does not relate to an existing item"
  }

  /** "No winning bid for item id : %s". */
  function WinningBidNotFound(id: int): string {
    "No winning bid for item id : " + ShowInt(id)
  }

  /** `%s` of a possibly null value. */
  function ShowOptionalInt(v: Option<int>): string {
    if v.Some? then ShowInt(v.value) else "null"
  }

  function ShowOptionalString(v: Option<string>): string {
    if v.Some? then v.value else "null"
  }

  /** "Invalid bid on item : %s, for user : %s" with the request's fields. */
  function InvalidBidRequestMessage(bid: Bid): string {
    "Invalid bid on item : " + ShowOptionalInt(bid.itemId) + ", for user : " + ShowOptionalString(bid.userId)
  }

  /** The item id of a request path: blank text is "must be specified", text
      that is not a 64-bit integer is "does not conform to the required format"
      with the raw text, anything else is its value. */
  function PathId(itemIdStr: string): (r: Result<int, Exception>)
    ensures r.Err? <==> !IsItemIdText(itemIdStr)
    ensures r.Err? ==> r.error == IllegalArgument(
      if AllTrimmable(itemIdStr) then EMPTY_ITEM_ID else InvalidItemIdFormat(itemIdStr))
    ensures r.Ok? ==> r.value == ControllerUtils.NumeralValue(Trim(itemIdStr))
  {
    ControllerUtils.ConvertStringToResourceId(Some(itemIdStr), EMPTY_ITEM_ID, InvalidItemIdFormat(itemIdStr))
  }

  /** Path text that names a 64-bit item id once trimmed. */
  predicate IsItemIdText(itemIdStr: string) {
    !AllTrimmable(itemIdStr) && ControllerUtils.IsNumeral(Trim(itemIdStr))
    && ControllerUtils.InLongRange(ControllerUtils.NumeralValue(Trim(itemIdStr)))
  }

  /** `isValidItemId`: the catalog knows the id. */
  predicate IsValidItemId(id: int) {
    GetItem(id).Ok?
  }

  // ----- validateBid -----

  /** The item check: a missing id, or else an id the catalog does not know. */
  function ItemViolation(bid: Bid): (v: Option<string>)
    ensures v.Some? <==> bid.itemId.None? || !IsValidItemId(bid.itemId.value)
    ensures bid.itemId.None? ==> v == Some(EMPTY_ITEM_ID)
    ensures bid.itemId.Some? && v.Some? ==> v.value == ItemNotExist(bid.itemId.value)
  {
    match bid.itemId
    case None => Some(EMPTY_ITEM_ID)
    case Some(id) => if GetItem(id).Err? then Some(ItemNotExist(id)) else None
  }

  /** The user check: only a missing user id is a violation. */
  function UserViolation(bid: Bid): (v: Option<string>)
    ensures v.Some? <==> bid.userId.None?
    ensures v.Some? ==> v.value == EMPTY_USER_ID
  {
    if bid.userId.None? then Some(EMPTY_USER_ID) else None
  }

  /** The amount check: a missing amount, or else one that is not above zero. */
  function AmountViolation(bid: Bid): (v: Option<string>)
    ensures v.Some? <==> bid.amount.None? || bid.amount.value <= 0.0
    ensures bid.amount.None? ==> v == Some(EMPTY_AMOUNT)
    ensures bid.amount.Some? && v.Some? ==> v.value == INVALID_AMOUNT
  {
    match bid.amount
    case None => Some(EMPTY_AMOUNT)
    case Some(a) => if a <= 0.0 then Some(INVALID_AMOUNT) else None
  }

  function OptionToSeq(v: Option<string>): seq<string> {
    if v.Some? then [v.value] else []
  }

  /** `validateBid`: every violation, item first, then user, then amount. */
  function ValidateBid(bid: Bid): (errors: seq<string>)
    ensures errors == [] <==>
      bid.itemId.Some? && IsValidItemId(bid.itemId.value) && bid.userId.Some?
      && bid.amount.Some? && bid.amount.value > 0.0
    ensures forall e :: e in errors <==>
      Some(e) == ItemViolation(bid) || Some(e) == UserViolation(bid) || Some(e) == AmountViolation(bid)
    ensures ItemViolation(bid).Some? ==> errors[0] == ItemViolation(bid).value
    ensures AmountViolation(bid).Some? ==> errors[|errors| - 1] == AmountViolation(bid).value
    ensures OrderedSet.NoDuplicates(errors)
  {
    MessagesDistinct(bid);
    OptionToSeq(ItemViolation(bid)) + OptionToSeq(UserViolation(bid)) + OptionToSeq(AmountViolation(bid))
  }

  /** Two strings that differ at a position both have differ. */
  lemma DifferAt(a: string, b: string, i: nat)
    requires i < |a| && i < |b| && a[i] != b[i]
    ensures a != b
  {
  }

  /** The messages of the three checks never coincide. */
  lemma MessagesDistinct(bid: Bid)
    ensures ItemViolation(bid).Some? && UserViolation(bid).Some? ==> ItemViolation(bid).value != UserViolation(bid).value
    ensures ItemViolation(bid).Some? && AmountViolation(bid).Some? ==> ItemViolation(bid).value != AmountViolation(bid).value
    ensures UserViolation(bid).Some? && AmountViolation(bid).Some? ==> UserViolation(bid).value != AmountViolation(bid).value
  {
    if ItemViolation(bid).Some? {
      var v := ItemViolation(bid).value;
      ItemViolationInitial(bid);
      if UserViolation(bid).Some? { DifferAt(v, EMPTY_USER_ID, 0); }
      if AmountViolation(bid).Some? { DifferAt(v, AmountViolation(bid).value, 0); }
    }
  }

  /** Both item messages start with "I", unlike the user and amount messages. */
  lemma ItemViolationInitial(bid: Bid)
    requires ItemViolation(bid).Some?
    ensures |ItemViolation(bid).value| > 0 && ItemViolation(bid).value[0] == 'I'
  {
    if bid.itemId.Some? {
      var v := ItemViolation(bid).value;
      assert v == "Item id : " + (ShowInt(bid.itemId.value) + ", does not relate to an existing item");
    }
  }

  // ----- createBid -----

  /** The catalog knows every item that has bids. */
  predicate ItemsInCatalog(l: Ledger) {
    forall k :: k in l ==> IsValidItemId(k)
  }

  /** The state invariant of the running service. */
  predicate ServiceInvariant(l: Ledger) {
    Valid(l) && ItemsInCatalog(l)
  }

  /** `createBid`: parse the path id, require it to equal the body's item id,
      validate, then save; any failure of the save becomes a CRUD error. */
  function CreateBid(l: Ledger, itemIdStr: string, bid: Bid, now: int): (r: CreateResult)
    requires Valid(l)
    ensures Valid(r.ledger)
    ensures ItemsInCatalog(l) ==> ItemsInCatalog(r.ledger)
    ensures r.ledger != l ==> r.outcome.Ok?
    ensures PathId(itemIdStr).Ok? ==>
      forall k :: k != PathId(itemIdStr).value ==> FindByItemId(r.ledger, k) == FindByItemId(l, k)
    ensures PathId(itemIdStr).Err? ==> r == CreateResult(l, Err(PathId(itemIdStr).error))
    ensures PathId(itemIdStr).Ok? ==>
      var id := PathId(itemIdStr).value;
      && (bid.itemId != Some(id) ==> r == CreateResult(l, Err(IllegalArgument(ITEM_ID_MISMATCH))))
      && (bid.itemId == Some(id) && ValidateBid(bid) != [] ==>
            r.ledger == l
            && r.outcome == Err(InvalidResource(InvalidBidRequestMessage(bid), None, ValidateBid(bid))))
      && (bid.itemId == Some(id) && ValidateBid(bid) == [] ==>
            && (r.outcome.Ok? <==> id !in l || bid.amount.value > l[id][0].amount)
            && (r.outcome.Ok? ==>
                 r.outcome.value == BidDetail(id, Some(ItemRepository.FindById(id).value.description),
                                              bid.userId.value, bid.amount.value, Some(now))
                 && FindByItemId(r.ledger, id) == [ToEntity(bid).(submittedAt := Some(now))] + FindByItemId(l, id))
            && (r.outcome.Err? ==>
                 r.ledger == l
                 && r.outcome.error == ResourceCrud(BID_CREATION_FAILED + InvalidBidMessage(id, bid.userId.value), None)))
  {
    match PathId(itemIdStr)
    case Err(e) => CreateResult(l, Err(e))
    case Ok(id) =>
      if bid.itemId != Some(id) then
        CreateResult(l, Err(IllegalArgument(ITEM_ID_MISMATCH)))
      else
        var errors := ValidateBid(bid);
        if errors != [] then
          AddDistinctReasons(InvalidBidRequestMessage(bid), None, errors);
          CreateResult(l, Err(AddReasons(NewInvalidResource(InvalidBidRequestMessage(bid), None), errors)))
        else
          var created := BidService.CreateBid(l, bid, now);
          match created.outcome
          case Err(e) => CreateResult(created.ledger, Err(ResourceCrud(BID_CREATION_FAILED + e.message, None)))
          case Ok(d) =>
            match GetItem(d.itemId)
            case Err(e) => CreateResult(created.ledger, Err(ResourceCrud(BID_CREATION_FAILED + e.message, None)))
            case Ok(item) => CreateResult(created.ledger, Ok(d.(itemDescription := Some(item.description))))
  }

  /** The "item id must be specified" check of `validateBid` is never reported
      by `createBid`: a body without an item id fails the mismatch check first. */
  lemma EmptyItemIdUnreachable(l: Ledger, itemIdStr: string, bid: Bid, now: int)
    requires Valid(l)
    ensures var r := CreateBid(l, itemIdStr, bid, now);
      r.outcome.Err? && r.outcome.error.InvalidResource? ==> EMPTY_ITEM_ID !in r.outcome.error.reasons
  {
    var c := PathId(itemIdStr);
    if c.Ok? && bid.itemId == Some(c.value) {
      EmptyItemIdNotValidated(bid);
    }
  }

  /** A body that carries an item id never draws the missing-item-id reason. */
  lemma EmptyItemIdNotValidated(bid: Bid)
    requires bid.itemId.Some?
    ensures EMPTY_ITEM_ID !in ValidateBid(bid)
  {
    var id := bid.itemId.value;
    assert ItemNotExist(id)[8] == ':' by {
      assert ItemNotExist(id) == "Item id : " + (ShowInt(id) + ", does not relate to an existing item");
    }
    DifferAt(EMPTY_ITEM_ID, ItemNotExist(id), 8);
    DifferAt(EMPTY_ITEM_ID, EMPTY_USER_ID, 0);
    DifferAt(EMPTY_ITEM_ID, EMPTY_AMOUNT, 0);
    DifferAt(EMPTY_ITEM_ID, INVALID_AMOUNT, 0);
  }

  // ----- winning bid -----

  /** `stream().max(comparing(amount))`: the first bid whose amount is at least
      every other amount (a later bid replaces the current best only when
      strictly greater). */
  function FirstMaxIndex(ds: seq<BidDetail>): (k: nat)
    requires |ds| > 0
    ensures k < |ds|
    ensures forall j :: 0 <= j < |ds| ==> ds[j].amount <= ds[k].amount
    ensures forall j :: 0 <= j < k ==> ds[j].amount < ds[k].amount
    decreases |ds|
  {
    if |ds| == 1 then 0
    else
      var k := FirstMaxIndex(ds[..|ds| - 1]);
      if ds[|ds| - 1].amount > ds[k].amount then |ds| - 1 else k
  }

  /** Exactly one position is maximal with no equal-or-higher amount before it. */
  lemma FirstMaxIndexUnique(ds: seq<BidDetail>, k': nat)
    requires |ds| > 0 && k' < |ds|
    requires forall j :: 0 <= j < |ds| ==> ds[j].amount <= ds[k'].amount
    requires forall j :: 0 <= j < k' ==> ds[j].amount < ds[k'].amount
    ensures FirstMaxIndex(ds) == k'
  {
  }

  /** Winner selection over a list: not found when it is empty, else the first maximal bid. */
  function SelectWinningBid(ds: seq<BidDetail>, id: int): (r: Result<BidDetail, Exception>)
    ensures ds == [] <==> r.Err?
    ensures r.Err? ==> r.error == ResourceNotFound(WinningBidNotFound(id), None)
    ensures r.Ok? ==> r.value in ds && forall j :: 0 <= j < |ds| ==> ds[j].amount <= r.value.amount
    ensures r.Ok? ==>
      exists k :: 0 <= k < |ds| && r.value == ds[k] && forall j :: 0 <= j < k ==> ds[j].amount < ds[k].amount
  {
    if ds == [] then Err(ResourceNotFound(WinningBidNotFound(id), None))
    else Ok(ds[FirstMaxIndex(ds)])
  }

  /** `getWinningBidForItem`: a not-found from the lookup of the description is
      passed through unchanged, as the handler rethrows not-found failures. */
  function GetWinningBid(l: Ledger, itemIdStr: string): (r: Result<BidDetail, Exception>)
    ensures PathId(itemIdStr).Err? ==> r == Err(PathId(itemIdStr).error)
    ensures PathId(itemIdStr).Ok? ==>
      var id := PathId(itemIdStr).value;
      && (!IsValidItemId(id) ==> r == Err(InvalidResource(InvalidItemId(id), None, [])))
      && (IsValidItemId(id) && GetBidsForItem(l, id) == [] ==> r == Err(ResourceNotFound(WinningBidNotFound(id), None)))
      && (IsValidItemId(id) && Valid(l) && id in l ==>
            r == Ok(GetWinningBidForItem(l, id).value.(itemDescription := Some(ItemRepository.FindById(id).value.description))))
  {
    var id :- PathId(itemIdStr);
    if !IsValidItemId(id) then Err(InvalidResource(InvalidItemId(id), None, []))
    else
      WinningBidOnValidLedger(l, id);
      var w :- SelectWinningBid(GetBidsForItem(l, id), id);
      var item :- GetItem(w.itemId);
      Ok(w.(itemDescription := Some(item.description)))
  }

  /** On a valid ledger the controller's max-selection picks the head of the
      item's list: the service's winning bid, and the highest one. */
  lemma WinningBidIsListHead(l: Ledger, id: int)
    requires Valid(l) && id in l
    ensures SelectWinningBid(GetBidsForItem(l, id), id) == Ok(GetWinningBidForItem(l, id).value)
  {
    var ds := GetBidsForItem(l, id);
    FirstMaxIndexUnique(ds, 0);
  }

  /** On a valid ledger with bids on the item, selection gives the list head. */
  lemma WinningBidOnValidLedger(l: Ledger, id: int)
    ensures Valid(l) && id in l ==> SelectWinningBid(GetBidsForItem(l, id), id) == Ok(GetWinningBidForItem(l, id).value)
  {
    if Valid(l) && id in l {
      WinningBidIsListHead(l, id);
    }
  }

  /** For a known item with bids, the endpoint returns the highest bid with the
      catalog description filled in. */
  lemma GetWinningBidSucceeds(l: Ledger, id: int)
    requires Valid(l) && id in l && IsValidItemId(id) && ControllerUtils.InLongRange(id)
    ensures GetWinningBid(l, ShowInt(id)) ==
      Ok(GetWinningBidForItem(l, id).value.(itemDescription := Some(ItemRepository.FindById(id).value.description)))
  {
    ControllerUtils.ConvertShowInt(id, EMPTY_ITEM_ID, InvalidItemIdFormat(ShowInt(id)));
  }

  // ----- bids for an item -----

  /** Fills in the catalog description of each bid; the first failing lookup aborts. */
  function WithDescriptions(ds: seq<BidDetail>): (r: Result<seq<BidDetail>, Exception>)
    ensures r.Ok? <==> forall i :: 0 <= i < |ds| ==> IsValidItemId(ds[i].itemId)
    ensures r.Ok? ==> |r.value| == |ds| && forall i :: 0 <= i < |ds| ==>
      r.value[i] == ds[i].(itemDescription := Some(GetItem(ds[i].itemId).value.description))
    decreases |ds|
  {
    if ds == [] then Ok([])
    else
      var item :- GetItem(ds[0].itemId);
      var rest :- WithDescriptions(ds[1..]);
      assert forall i :: 1 <= i < |ds| ==> ds[i] == ds[1..][i - 1];
      Ok([ds[0].(itemDescription := Some(item.description))] + rest)
  }

  /** `getAllBidsForItem`: every bid on a known item, newest first, each with
      the item's description; a failure while enriching becomes a system error. */
  function GetAllBidsForItem(l: Ledger, itemIdStr: string): (r: Result<seq<BidDetail>, Exception>)
    ensures PathId(itemIdStr).Err? ==> r == Err(PathId(itemIdStr).error)
    ensures PathId(itemIdStr).Ok? ==>
      var id := PathId(itemIdStr).value;
      && (!IsValidItemId(id) ==> r == Err(InvalidResource(InvalidItemId(id), None, [])))
      && (IsValidItemId(id) && Valid(l) ==>
            && r.Ok? && |r.value| == |FindByItemId(l, id)|
            && (forall i :: 0 <= i < |r.value| ==>
                 r.value[i] == ToDetail(FindByItemId(l, id)[i]).(itemDescription := Some(ItemRepository.FindById(id).value.description))))
  {
    var id :- PathId(itemIdStr);
    if !IsValidItemId(id) then Err(InvalidResource(InvalidItemId(id), None, []))
    else
      match WithDescriptions(GetBidsForItem(l, id))
      case Ok(ds) => Ok(ds)
      case Err(e) =>
        Err(Base("Failed to retrieve bids on auction item with id : " + ShowInt(id) + " - " + e.message,
                 Some(ApiErrors.UNEXPECTED_ERROR)))
  }

  /** The two per-item read endpoints agree on a valid ledger: they reject the
      same path ids with the same error, the winning bid is the first of all
      bids, and an item without bids has no winner. */
  lemma AllBidsAgreeWithWinner(l: Ledger, itemIdStr: string)
    requires Valid(l)
    ensures var all := GetAllBidsForItem(l, itemIdStr);
      var win := GetWinningBid(l, itemIdStr);
      && (all.Err? ==> win == Err(all.error))
      && (all.Ok? && all.value != [] ==> win == Ok(all.value[0]))
      && (all.Ok? && all.value == [] ==> win.Err? && win.error.ResourceNotFound?)
  {
  }

  // ----- items a user has bid on -----

  /** `ids[i]` is the first id the catalog does not know. */
  predicate FirstUnknown(ids: seq<int>, i: int) {
    0 <= i < |ids| && !IsValidItemId(ids[i]) && forall j :: 0 <= j < i ==> IsValidItemId(ids[j])
  }

  /** Behind a known id, the first unknown id of the tail is the first unknown id. */
  lemma FirstUnknownAfterKnown(ids: seq<int>, e: Exception)
    requires |ids| > 0 && IsValidItemId(ids[0])
    requires exists i :: FirstUnknown(ids[1..], i) && e == GetItem(ids[1..][i]).error
    ensures exists i :: FirstUnknown(ids, i) && e == GetItem(ids[i]).error
  {
    var i :| FirstUnknown(ids[1..], i) && e == GetItem(ids[1..][i]).error;
    assert FirstUnknown(ids, i + 1);
  }

  /** Looks each id up in the catalog, in order; the first failing lookup aborts. */
  function LookupItems(ids: seq<int>): (r: Result<seq<Item>, Exception>)
    ensures r.Ok? <==> forall i :: 0 <= i < |ids| ==> IsValidItemId(ids[i])
    ensures r.Ok? ==> |r.value| == |ids| && forall i :: 0 <= i < |ids| ==> r.value[i] == GetItem(ids[i]).value
    ensures r.Err? ==> r.error.ResourceNotFound?
    ensures r.Err? ==> exists i :: FirstUnknown(ids, i) && r.error == GetItem(ids[i]).error
    decreases |ids|
  {
    if ids == [] then Ok([])
    else if GetItem(ids[0]).Err? then
      assert FirstUnknown(ids, 0);
      Err(GetItem(ids[0]).error)
    else
      var rest := LookupItems(ids[1..]);
      assert forall i :: 1 <= i < |ids| ==> ids[i] == ids[1..][i - 1];
      if rest.Err? then
        FirstUnknownAfterKnown(ids, rest.error);
        Err(rest.error)
      else
        Ok([GetItem(ids[0]).value] + rest.value)
  }

  function DetailItemId(d: BidDetail): int {
    d.itemId
  }

  function ItemId(it: Item): int {
    it.id
  }

  /** The distinct items named by a list of bids, in first-occurrence order;
      the first lookup that fails aborts. */
  function ItemsOfBids(ds: seq<BidDetail>): (r: Result<seq<Item>, Exception>)
    ensures r.Ok? <==> forall i :: 0 <= i < |ds| ==> IsValidItemId(ds[i].itemId)
    ensures r.Ok? ==> OrderedSet.NoDuplicates(r.value)
    ensures r.Err? ==> r.error.ResourceNotFound?
  {
    var ids := OrderedSet.MapSeq(DetailItemId, ds);
    assert forall i :: 0 <= i < |ds| ==> ids[i] == ds[i].itemId;
    var found := LookupItems(ids);
    if found.Ok? then Ok(OrderedSet.FromSeq(found.value))
    else Err(found.error)
  }

  /** Every item collected is the catalog's own item for its id, and the item
      of every bid is collected. */
  lemma ItemsOfBidsAreCatalogItems(ds: seq<BidDetail>)
    ensures var r := ItemsOfBids(ds);
      r.Ok? ==>
        && (forall i :: 0 <= i < |r.value| ==> GetItem(r.value[i].id) == Ok(r.value[i]))
        && (forall i :: 0 <= i < |ds| ==> GetItem(ds[i].itemId).value in r.value)
  {
    var ids := OrderedSet.MapSeq(DetailItemId, ds);
    var found := LookupItems(ids);
    if found.Ok? {
      assert forall i :: 0 <= i < |ds| ==> ids[i] == ds[i].itemId;
      CollectedAreCatalogItems(ids, found.value);
      CollectedCoverIds(ids, found.value);
    }
  }

  /** When every item is known, the result lists exactly the distinct item ids
      of the bids, in the order in which they first appear. */
  lemma ItemsOfBidsDistinctIds(ds: seq<BidDetail>)
    requires forall i :: 0 <= i < |ds| ==> IsValidItemId(ds[i].itemId)
    ensures ItemsOfBids(ds).Ok?
    ensures OrderedSet.MapSeq(ItemId, ItemsOfBids(ds).value) == OrderedSet.FromSeq(OrderedSet.MapSeq(DetailItemId, ds))
  {
    var ids := OrderedSet.MapSeq(DetailItemId, ds);
    var items := LookupItems(ids).value;
    LookupItemsInjective(ids, items);
    OrderedSet.FromSeqMap(ItemId, items);
  }

  /** `getItems`: all catalog items, or the items the user has bid on collected
      into a `LinkedHashSet`; a failure becomes a system error. */
  function GetItems(l: Ledger, order: seq<int>, bidUserId: Option<string>): (r: Result<seq<Item>, Exception>)
    requires IsEnumeration(order, l)
    ensures bidUserId.None? ==> r == Ok(GetAllItems())
    ensures bidUserId.Some? ==> (r.Ok? <==> ItemsOfBids(GetBidsForUser(l, order, bidUserId.value)).Ok?)
    ensures bidUserId.Some? && r.Ok? ==> r == ItemsOfBids(GetBidsForUser(l, order, bidUserId.value))
    ensures bidUserId.Some? && r.Err? ==>
      r.error == Base("Failed to retrieve auctions items on which user : " + bidUserId.value + ", has bid - "
                      + ItemsOfBids(GetBidsForUser(l, order, bidUserId.value)).error.message,
                      Some(ApiErrors.UNEXPECTED_ERROR))
    ensures r.Ok? ==> OrderedSet.NoDuplicates(r.value)
    ensures r.Err? ==> r.error.Base? && r.error.errorCode == Some(ApiErrors.UNEXPECTED_ERROR)
  {
    match bidUserId
    case None => Ok(GetAllItems())
    case Some(u) =>
      match ItemsOfBids(GetBidsForUser(l, order, u))
      case Ok(items) => Ok(items)
      case Err(e) =>
        Err(Base("Failed to retrieve auctions items on which user : " + u + ", has bid - " + e.message,
                 Some(ApiErrors.UNEXPECTED_ERROR)))
  }

  /** Looked-up items are the catalog's own items. */
  lemma LookedUpAreCatalogItems(ids: seq<int>, items: seq<Item>)
    requires LookupItems(ids) == Ok(items)
    ensures forall i :: 0 <= i < |items| ==> GetItem(items[i].id) == Ok(items[i])
  {
    forall i | 0 <= i < |items|
      ensures GetItem(items[i].id) == Ok(items[i])
    {
      CatalogItemOfKnownId(ids[i], items[i]);
    }
  }

  /** Collecting looked-up items keeps only catalog items. */
  lemma CollectedAreCatalogItems(ids: seq<int>, items: seq<Item>)
    requires LookupItems(ids) == Ok(items)
    ensures var r := OrderedSet.FromSeq(items);
      forall i :: 0 <= i < |r| ==> GetItem(r[i].id) == Ok(r[i])
  {
    var r := OrderedSet.FromSeq(items);
    LookedUpAreCatalogItems(ids, items);
    forall i | 0 <= i < |r|
      ensures GetItem(r[i].id) == Ok(r[i])
    {
      var j :| 0 <= j < |items| && items[j] == r[i];
    }
  }

  /** Collecting looked-up items drops none of the ids' items. */
  lemma CollectedCoverIds(ids: seq<int>, items: seq<Item>)
    requires LookupItems(ids) == Ok(items)
    ensures forall i :: 0 <= i < |ids| ==> GetItem(ids[i]).value in OrderedSet.FromSeq(items)
  {
    forall i | 0 <= i < |ids|
      ensures GetItem(ids[i]).value in OrderedSet.FromSeq(items)
    {
      assert items[i] == GetItem(ids[i]).value;
    }
  }

  /** The item a successful lookup returns is found again by its own id. */
  lemma CatalogItemOfKnownId(id: int, it: Item)
    requires GetItem(id).Ok? && it == GetItem(id).value
    ensures GetItem(it.id) == Ok(it)
  {
  }

  /** Items looked up by id are told apart by their id. */
  lemma LookupItemsInjective(ids: seq<int>, items: seq<Item>)
    requires LookupItems(ids) == Ok(items)
    ensures OrderedSet.InjectiveOn(ItemId, items)
    ensures OrderedSet.MapSeq(ItemId, items) == ids
  {
    forall a, b | a in items && b in items && ItemId(a) == ItemId(b)
      ensures a == b
    {
      var i :| 0 <= i < |items| && items[i] == a;
      var j :| 0 <= j < |items| && items[j] == b;
    }
  }

  /** Every item a user has bid on is in the catalog, on a running service. */
  lemma UserBidItemsKnown(l: Ledger, order: seq<int>, u: string)
    requires ServiceInvariant(l) && IsEnumeration(order, l)
    ensures var ids := OrderedSet.MapSeq(DetailItemId, GetBidsForUser(l, order, u));
      forall i :: 0 <= i < |ids| ==> IsValidItemId(ids[i])
  {
    var ids := OrderedSet.MapSeq(DetailItemId, GetBidsForUser(l, order, u));
    forall i | 0 <= i < |ids| ensures IsValidItemId(ids[i]) {
      var b := FindByUserId(l, order, u)[i];
      FindByUserIdMembers(l, order, u, b);
      var k :| k in l && b in l[k];
      assert ids[i] == k;
    }
  }

  /** On a running service the items a user has bid on are the distinct item
      ids of the user's bids, in first-occurrence order. */
  lemma GetItemsDistinctIds(l: Ledger, order: seq<int>, u: string)
    requires ServiceInvariant(l) && IsEnumeration(order, l)
    ensures var ids := OrderedSet.MapSeq(DetailItemId, GetBidsForUser(l, order, u));
      GetItems(l, order, Some(u)).Ok?
      && OrderedSet.MapSeq(ItemId, GetItems(l, order, Some(u)).value) == OrderedSet.FromSeq(ids)
  {
    UserBidItemsKnown(l, order, u);
    ItemsOfBidsDistinctIds(GetBidsForUser(l, order, u));
  }
}
