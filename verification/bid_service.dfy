/** `BidServiceImpl`: the ledger's queries and `createBid`, returning the API
    view of a bid (`BidDetail`). The bid mapper is a plain field copy; the
    item description is left empty here and filled in by the controller. */
module BidService {
  import opened Results
  import opened Exceptions
  import OrderedSet
  import opened BidRepository

  /** The request body of a bid submission; every field may be missing. */
  datatype Bid = Bid(itemId: Option<int>, userId: Option<string>, amount: Option<real>)

  /** A bid as returned to clients. */
  datatype BidDetail = BidDetail(
    itemId: int,
    itemDescription: Option<string>,
    userId: string,
    amount: real,
    createdDateTime: Option<int>)

  /** `bidEntityToBidDetail`: copies item, user, amount and submission time. */
  function ToDetail(e: BidEntity): (d: BidDetail)
    ensures d.itemId == e.itemId && d.userId == e.userId && d.amount == e.amount
    ensures d.itemDescription.None? && d.createdDateTime == e.submittedAt
  {
    BidDetail(e.itemId, None, e.userId, e.amount, e.submittedAt)
  }

  predicate Complete(b: Bid) {
    b.itemId.Some? && b.userId.Some? && b.amount.Some?
  }

  /** `bidToBidEntity`: copies the fields; the entity is not stamped yet. */
  function ToEntity(b: Bid): (e: BidEntity)
    requires Complete(b)
    ensures e.itemId == b.itemId.value && e.userId == b.userId.value && e.amount == b.amount.value
    ensures e.submittedAt.None?
  {
    BidEntity(b.itemId.value, b.userId.value, b.amount.value, None)
  }

  function ToDetails(bs: seq<BidEntity>): (ds: seq<BidDetail>)
    ensures |ds| == |bs|
    ensures forall i :: 0 <= i < |bs| ==> ds[i] == ToDetail(bs[i])
  {
    OrderedSet.MapSeq(ToDetail, bs)
  }

  /** `getAllBids`: one detail per stored bid, in `findAll` order. */
  function GetAllBids(l: Ledger, order: seq<int>): (ds: seq<BidDetail>)
    requires IsEnumeration(order, l)
    ensures |ds| == |FindAll(l, order)| == TotalBids(l)
    ensures forall i :: 0 <= i < |ds| ==> ds[i] == ToDetail(FindAll(l, order)[i])
  {
    FindAllSize(l, order);
    ToDetails(FindAll(l, order))
  }

  /** `getBidsForItem`: one detail per stored bid on the item, newest first. */
  function GetBidsForItem(l: Ledger, itemId: int): (ds: seq<BidDetail>)
    ensures |ds| == |FindByItemId(l, itemId)|
    ensures forall i :: 0 <= i < |ds| ==> ds[i] == ToDetail(FindByItemId(l, itemId)[i])
    ensures Valid(l) ==> forall i :: 0 <= i < |ds| ==> ds[i].itemId == itemId && ds[i].createdDateTime.Some?
    ensures Valid(l) ==> forall i, j :: 0 <= i < j < |ds| ==> ds[j].amount < ds[i].amount
  {
    ToDetails(FindByItemId(l, itemId))
  }

  /** `getWinningBidForItem`: the first bid of the item's list, if any. */
  function GetWinningBidForItem(l: Ledger, itemId: int): (w: Option<BidDetail>)
    ensures w.None? <==> GetBidsForItem(l, itemId) == []
    ensures w.Some? ==> w.value == GetBidsForItem(l, itemId)[0]
  {
    var bids := FindByItemId(l, itemId);
    if bids == [] then None else Some(ToDetail(bids[0]))
  }

  /** `getBidsForUser`: one detail per bid of the user, in `findByUserId` order. */
  function GetBidsForUser(l: Ledger, order: seq<int>, userId: string): (ds: seq<BidDetail>)
    requires IsEnumeration(order, l)
    ensures |ds| == |FindByUserId(l, order, userId)|
    ensures forall i :: 0 <= i < |ds| ==> ds[i] == ToDetail(FindByUserId(l, order, userId)[i])
    ensures forall i :: 0 <= i < |ds| ==> ds[i].userId == userId
  {
    var bs := FindByUserId(l, order, userId);
    forall i | 0 <= i < |bs| ensures bs[i].userId == userId {
      ByUserMember(FindAll(l, order), userId, bs[i]);
    }
    ToDetails(bs)
  }

  /** The ledger after `createBid` and what it returned or threw. */
  datatype CreateResult = CreateResult(ledger: Ledger, outcome: Result<BidDetail, Exception>)

  /** `createBid`: converts the request, saves it once and maps what was stored. */
  function CreateBid(l: Ledger, bid: Bid, now: int): (r: CreateResult)
    requires Valid(l) && Complete(bid)
    ensures Valid(r.ledger)
    ensures var k := bid.itemId.value;
      r.outcome.Ok? <==> k !in l || bid.amount.value > l[k][0].amount
    ensures r.outcome.Ok? ==>
      && r.outcome.value == BidDetail(bid.itemId.value, None, bid.userId.value, bid.amount.value, Some(now))
      && GetBidsForItem(r.ledger, bid.itemId.value) == [r.outcome.value] + GetBidsForItem(l, bid.itemId.value)
      && GetWinningBidForItem(r.ledger, bid.itemId.value) == Some(r.outcome.value)
    ensures r.outcome.Err? ==>
      r.ledger == l
      && r.outcome.error == InvalidResource(InvalidBidMessage(bid.itemId.value, bid.userId.value), None, [INVALID_BID_REASON])
    ensures forall k :: k != bid.itemId.value ==> FindByItemId(r.ledger, k) == FindByItemId(l, k)
  {
    var saved := Save(l, ToEntity(bid), now);
    match saved.outcome
    case Ok(e) => CreateResult(saved.ledger, Ok(ToDetail(e)))
    case Err(x) => CreateResult(saved.ledger, Err(x))
  }

  /** The winning bid is the highest: its amount is the maximum of the item's
      bids, every other bid is strictly lower, and it is absent exactly when
      the item has no bids. */
  lemma WinningBidIsHighest(l: Ledger, itemId: int)
    requires Valid(l)
    ensures GetWinningBidForItem(l, itemId).None? <==> itemId !in l
    ensures itemId in l ==>
      var w := GetWinningBidForItem(l, itemId).value;
      && w.amount == MaxAmount(l[itemId])
      && forall i :: 0 < i < |GetBidsForItem(l, itemId)| ==> GetBidsForItem(l, itemId)[i].amount < w.amount
  {
    if itemId in l {
      HeadIsMaximum(l[itemId]);
    }
  }

  /** `getBidsForUser` lists every stored bid of the user. */
  lemma GetBidsForUserComplete(l: Ledger, order: seq<int>, userId: string, b: BidEntity)
    requires IsEnumeration(order, l)
    requires b.userId == userId
    requires exists k :: k in l && b in l[k]
    ensures ToDetail(b) in GetBidsForUser(l, order, userId)
  {
    FindByUserIdMembers(l, order, userId, b);
    var bs := FindByUserId(l, order, userId);
    var i :| 0 <= i < |bs| && bs[i] == b;
    assert GetBidsForUser(l, order, userId)[i] == ToDetail(b);
  }

  /** `getBidsForUser` lists only stored bids of the user: each detail is the
      conversion of one of them. */
  lemma GetBidsForUserSound(l: Ledger, order: seq<int>, userId: string, i: int)
    requires IsEnumeration(order, l)
    requires 0 <= i < |GetBidsForUser(l, order, userId)|
    ensures exists k, b :: k in l && b in l[k] && b.userId == userId && GetBidsForUser(l, order, userId)[i] == ToDetail(b)
  {
    var b := FindByUserId(l, order, userId)[i];
    FindByUserIdMembers(l, order, userId, b);
    var k :| k in l && b in l[k];
    assert GetBidsForUser(l, order, userId)[i] == ToDetail(b);
  }

  /** `getAllBids` is one detail per stored bid: as many as `findAll` returns,
      whatever the iteration order. */
  lemma GetAllBidsCount(l: Ledger, o1: seq<int>, o2: seq<int>)
    requires IsEnumeration(o1, l) && IsEnumeration(o2, l)
    ensures |GetAllBids(l, o1)| == |GetAllBids(l, o2)| == |FindAll(l, o1)|
  {
    FindAllOrderIndependent(l, o1, o2);
  }
}
