/** Concrete runs of the model on the situations the repository's own unit
    tests describe. Times are abstract stamps `1, 2, ...`. */
module Scenarios {
  import opened Results
  import opened Text
  import opened Exceptions
  import ApiErrors
  import ControllerUtils
  import ExceptionHandler
  import opened BidRepository
  import opened BidService
  import AuctionController
  import OrderedSet

  /** An accepted bid is pushed on the front of its item's list. */
  lemma AcceptedStep(l: Ledger, bid: Bid, now: int)
    requires Valid(l) && Complete(bid)
    requires FindByItemId(l, bid.itemId.value) == [] || bid.amount.value > FindByItemId(l, bid.itemId.value)[0].amount
    ensures var k := bid.itemId.value;
      BidService.CreateBid(l, bid, now).ledger ==
        l[k := [BidEntity(k, bid.userId.value, bid.amount.value, Some(now))] + FindByItemId(l, k)]
  {
  }

  const BOB_12: BidEntity := BidEntity(1, "bob", 12.00, Some(1))
  const ALICE_12_50: BidEntity := BidEntity(1, "alice", 12.50, Some(2))
  const ALICE_10: BidEntity := BidEntity(3, "alice", 10.00, Some(3))
  const BOB_16: BidEntity := BidEntity(1, "bob", 16.00, Some(4))

  const FOUR_BIDS: Ledger := map[1 := [BOB_16, ALICE_12_50, BOB_12], 3 := [ALICE_10]]

  /** The ledger after the four bids of `FourBids`. */
  function FourBidsLedger(): Ledger {
    var r1 := BidService.CreateBid(Empty, Bid(Some(1), Some("bob"), Some(12.00)), 1);
    var r2 := BidService.CreateBid(r1.ledger, Bid(Some(1), Some("alice"), Some(12.50)), 2);
    var r3 := BidService.CreateBid(r2.ledger, Bid(Some(3), Some("alice"), Some(10.00)), 3);
    BidService.CreateBid(r3.ledger, Bid(Some(1), Some("bob"), Some(16.00)), 4).ledger
  }

  /** Every one of the four bids is accepted, newest first per item. */
  lemma FourBidsState()
    ensures FourBidsLedger() == FOUR_BIDS
  {
    var l1 := map[1 := [BOB_12]];
    var l2 := map[1 := [ALICE_12_50, BOB_12]];
    var l3 := map[1 := [ALICE_12_50, BOB_12], 3 := [ALICE_10]];
    AcceptedStep(Empty, Bid(Some(1), Some("bob"), Some(12.00)), 1);
    assert BidService.CreateBid(Empty, Bid(Some(1), Some("bob"), Some(12.00)), 1).ledger == l1;
    assert FindByItemId(l1, 1) == [BOB_12];
    assert [ALICE_12_50] + [BOB_12] == [ALICE_12_50, BOB_12];
    AcceptedStep(l1, Bid(Some(1), Some("alice"), Some(12.50)), 2);
    assert BidService.CreateBid(l1, Bid(Some(1), Some("alice"), Some(12.50)), 2).ledger == l2;
    AcceptedStep(l2, Bid(Some(3), Some("alice"), Some(10.00)), 3);
    assert BidService.CreateBid(l2, Bid(Some(3), Some("alice"), Some(10.00)), 3).ledger == l3;
    assert FindByItemId(l3, 1) == [ALICE_12_50, BOB_12];
    assert [BOB_16] + [ALICE_12_50, BOB_12] == [BOB_16, ALICE_12_50, BOB_12];
    AcceptedStep(l3, Bid(Some(1), Some("bob"), Some(16.00)), 4);
    assert l3[1 := [BOB_16, ALICE_12_50, BOB_12]] == map[1 := [BOB_16, ALICE_12_50, BOB_12], 3 := [ALICE_10]];
  }

  /** Bob's 12.00 and alice's 12.50 on item 1, alice's 10.00 on item 3, then
      bob's 16.00 on item 1: item 1 lists its three bids newest first, bob's
      16.00 wins, and item 2 has no winner. */
  lemma FourBids()
    ensures GetBidsForItem(FourBidsLedger(), 1) == [
           BidDetail(1, None, "bob", 16.00, Some(4)),
           BidDetail(1, None, "alice", 12.50, Some(2)),
           BidDetail(1, None, "bob", 12.00, Some(1))]
    ensures GetBidsForItem(FourBidsLedger(), 3) == [BidDetail(3, None, "alice", 10.00, Some(3))]
    ensures GetWinningBidForItem(FourBidsLedger(), 1) == Some(BidDetail(1, None, "bob", 16.00, Some(4)))
    ensures GetWinningBidForItem(FourBidsLedger(), 2) == None
  {
    FourBidsState();
  }

  /** After the same four bids, alice's bids are one per item, item 1 first
      when the store enumerates item 1 before item 3. */
  lemma FourBidsForAlice()
    ensures GetBidsForUser(FOUR_BIDS, [1, 3], "alice") == [
           BidDetail(1, None, "alice", 12.50, Some(2)),
           BidDetail(3, None, "alice", 10.00, Some(3))]
  {
    var bs := [BOB_16, ALICE_12_50, BOB_12, ALICE_10];
    assert FindAll(FOUR_BIDS, [1, 3]) == bs by {
      assert Concat(FOUR_BIDS, [1, 3]) == FOUR_BIDS[1] + Concat(FOUR_BIDS, [3]);
      assert Concat(FOUR_BIDS, [3]) == FOUR_BIDS[3] + Concat(FOUR_BIDS, []);
    }
    assert ByUser(bs[3..], "alice") == [ALICE_10] by {
      assert bs[3..][1..] == [];
    }
    assert ByUser(bs[2..], "alice") == [ALICE_10] by {
      assert bs[2..][1..] == bs[3..];
    }
    assert ByUser(bs[1..], "alice") == [ALICE_12_50, ALICE_10] by {
      assert bs[1..][1..] == bs[2..];
    }
    assert FindByUserId(FOUR_BIDS, [1, 3], "alice") == [ALICE_12_50, ALICE_10];
  }

  /** After bob's 12.00 on item 1, alice's equal bid is refused with the
      ledger's message and single reason, and the item's list is unchanged. */
  lemma EqualBidRefused()
    ensures var r1 := BidService.CreateBid(Empty, Bid(Some(1), Some("bob"), Some(12.00)), 1);
      var r2 := BidService.CreateBid(r1.ledger, Bid(Some(1), Some("alice"), Some(12.00)), 2);
      && r2.outcome.Err?
      && r2.outcome.error.message == "Invalid bid on item : 1, for user : alice"
      && r2.outcome.error.reasons == ["Amount bid must be greater than current highest"]
      && GetBidsForItem(r2.ledger, 1) == [BidDetail(1, None, "bob", 12.00, Some(1))]
  {
  }

  /** Through the controller the same refusal is a CRUD failure whose message
      is the creation-failure prefix followed by the ledger's message. */
  lemma EqualBidCrudFailure()
    ensures var l := map[1 := [BOB_12]];
      var r := AuctionController.CreateBid(l, "1", Bid(Some(1), Some("alice"), Some(12.00)), 2);
      r.ledger == l && r.outcome == Err(ResourceCrud(AuctionController.BID_CREATION_FAILED + InvalidBidMessage(1, "alice"), None))
  {
    ControllerUtilsFacts();
    ValidBidAccepted();
  }

  /** ... which the exception handler turns into a 409 with that single detail. */
  lemma EqualBidConflict()
    ensures var r := ExceptionHandler.Handle(ResourceCrud(AuctionController.BID_CREATION_FAILED + InvalidBidMessage(1, "alice"), None));
      && r.status == ApiErrors.Conflict
      && r.body.contextDetails == [AuctionController.BID_CREATION_FAILED + "Invalid bid on item : 1, for user : alice"]
  {
    assert ShowInt(1) == "1";
    assert InvalidBidMessage(1, "alice") == "Invalid bid on item : 1, for user : alice";
  }

  lemma ControllerUtilsFacts()
    ensures ControllerUtils.ConvertStringToResourceId(Some("1"), AuctionController.EMPTY_ITEM_ID,
      AuctionController.InvalidItemIdFormat("1")) == Ok(1)
  {
    assert ShowInt(1) == "1";
    ControllerUtils.ConvertShowInt(1, AuctionController.EMPTY_ITEM_ID, AuctionController.InvalidItemIdFormat("1"));
  }

  /** A body with an unknown item and neither user nor amount collects three
      reasons, item first. */
  lemma MissingFieldsReasons()
    ensures AuctionController.ValidateBid(Bid(Some(999), None, None)) ==
      [AuctionController.ItemNotExist(999), "User id must be specified", "Amount must be specified"]
  {
    var b := Bid(Some(999), None, None);
    assert AuctionController.ItemViolation(b) == Some(AuctionController.ItemNotExist(999));
    assert AuctionController.UserViolation(b) == Some(AuctionController.EMPTY_USER_ID);
    assert AuctionController.AmountViolation(b) == Some(AuctionController.EMPTY_AMOUNT);
  }

  /** A zero amount is the only reason reported for an otherwise valid body. */
  lemma ZeroAmountReason()
    ensures AuctionController.ValidateBid(Bid(Some(1), Some("bob"), Some(0.0))) == ["Amount must be greater than zero"]
  {
    var b := Bid(Some(1), Some("bob"), Some(0.0));
    assert AuctionController.ItemViolation(b) == None;
    assert AuctionController.UserViolation(b) == None;
    assert AuctionController.AmountViolation(b) == Some(AuctionController.INVALID_AMOUNT);
  }

  /** A complete body on a catalog item with a positive amount passes. */
  lemma ValidBidAccepted()
    ensures AuctionController.ValidateBid(Bid(Some(1), Some("alice"), Some(12.00))) == []
  {
  }

  /** Two bids share the highest amount 30.75: the first of them in list
      order (bob's) is the one selected. */
  lemma TiedMaximumFirstWins()
    ensures var ds := [
        BidDetail(3, None, "bob", 20.25, Some(1)),
        BidDetail(3, None, "alice", 25.50, Some(1)),
        BidDetail(3, None, "bob", 30.75, Some(1)),
        BidDetail(3, None, "alice", 28.50, Some(1)),
        BidDetail(3, None, "alice", 30.75, Some(1))];
      AuctionController.SelectWinningBid(ds, 3) == Ok(BidDetail(3, None, "bob", 30.75, Some(1)))
  {
    var ds := [
        BidDetail(3, None, "bob", 20.25, Some(1)),
        BidDetail(3, None, "alice", 25.50, Some(1)),
        BidDetail(3, None, "bob", 30.75, Some(1)),
        BidDetail(3, None, "alice", 28.50, Some(1)),
        BidDetail(3, None, "alice", 30.75, Some(1))];
    AuctionController.FirstMaxIndexUnique(ds, 2);
  }

  /** Bob's bids on items 2, 4, 2 and 3 name the items 2, 4 and 3, each once,
      in the order of their first bid. */
  lemma UserItemsFirstOccurrence()
    ensures var ds := [
        BidDetail(2, None, "bob", 20.00, Some(1)),
        BidDetail(4, None, "bob", 10.00, Some(1)),
        BidDetail(2, None, "bob", 25.00, Some(1)),
        BidDetail(3, None, "bob", 30.00, Some(1))];
      AuctionController.ItemsOfBids(ds).Ok?
      && OrderedSet.MapSeq(AuctionController.ItemId, AuctionController.ItemsOfBids(ds).value) == [2, 4, 3]
  {
    var ds := [
        BidDetail(2, None, "bob", 20.00, Some(1)),
        BidDetail(4, None, "bob", 10.00, Some(1)),
        BidDetail(2, None, "bob", 25.00, Some(1)),
        BidDetail(3, None, "bob", 30.00, Some(1))];
    var ids := OrderedSet.MapSeq(AuctionController.DetailItemId, ds);
    assert ids == [2, 4, 2, 3];
    AuctionController.ItemsOfBidsDistinctIds(ds);
    DistinctIdsOfFourBids();
  }

  /** Collecting the ids 2, 4, 2, 3 keeps the first 2 and drops the second. */
  lemma DistinctIdsOfFourBids()
    ensures OrderedSet.FromSeq([2, 4, 2, 3]) == [2, 4, 3]
  {
    CollectTwoFourTwo();
    FromSeqSnoc([2, 4, 2], 3);
    assert [2, 4, 2] + [3] == [2, 4, 2, 3];
  }

  /** Collecting 2, 4, 2: the repeated 2 is ignored. */
  lemma CollectTwoFourTwo()
    ensures OrderedSet.FromSeq([2, 4, 2]) == [2, 4]
  {
    CollectTwoFour();
    FromSeqSnoc([2, 4], 2);
    assert [2, 4] + [2] == [2, 4, 2];
  }

  /** Collecting 2, 4 keeps both, in order. */
  lemma CollectTwoFour()
    ensures OrderedSet.FromSeq([2, 4]) == [2, 4]
  {
    CollectTwo();
    FromSeqSnoc([2], 4);
    assert [2] + [4] == [2, 4];
  }

  /** Collecting the single id 2. */
  lemma CollectTwo()
    ensures OrderedSet.FromSeq([2]) == [2]
  {
    FromSeqSnoc([], 2);
    assert [] + [2] == [2];
  }

  /** One step of collecting a sequence: the last element is added to the
      collection of the others. */
  lemma FromSeqSnoc(xs: seq<int>, x: int)
    ensures OrderedSet.FromSeq(xs + [x]) == OrderedSet.Insert(OrderedSet.FromSeq(xs), x)
  {
    assert (xs + [x])[..|xs|] == xs;
  }
}
