/** `BidRepositoryImpl`: the bid ledger. The state maps an item id to that
    item's accepted bids, newest first. A bid is accepted when the item has no
    bids yet or when its amount is strictly greater than the amount at the head
    of the item's list; an accepted bid is stamped with the current time and
    pushed onto the front. So every list is strictly decreasing in amount and
    its head is both the newest and the highest bid. */
module BidRepository {
  import opened Results
  import opened Text
  import opened Exceptions
  import OrderedSet

  /** A stored bid. `submittedAt` is the acceptance time, absent before saving. */
  datatype BidEntity = BidEntity(itemId: int, userId: string, amount: real, submittedAt: Option<int>)

  /** The ledger state: item id to accepted bids, newest first. */
  type Ledger = map<int, seq<BidEntity>>

  /** The state of a freshly constructed repository. */
  const Empty: Ledger := map[]

  const INVALID_BID_REASON: string := "Amount bid must be greater than current highest"

  /** "Invalid bid on item : %s, for user : %s" formatted. */
  function InvalidBidMessage(itemId: int, userId: string): string {
    "Invalid bid on item : " + ShowInt(itemId) + ", for user : " + userId
  }

  /** Each later bid in the list is for strictly less than each earlier one. */
  predicate StrictlyDecreasing(bs: seq<BidEntity>) {
    forall i, j :: 0 <= i < j < |bs| ==> bs[j].amount < bs[i].amount
  }

  /** What every list in a reachable ledger looks like. */
  predicate ValidList(k: int, bs: seq<BidEntity>) {
    && |bs| > 0
    && StrictlyDecreasing(bs)
    && forall i :: 0 <= i < |bs| ==> bs[i].itemId == k && bs[i].submittedAt.Some?
  }

  /** The ledger invariant: every item present has a non-empty, strictly
      decreasing list of stamped bids for that item. */
  predicate Valid(l: Ledger) {
    forall k :: k in l ==> ValidList(k, l[k])
  }

  /** `findByItemId`: the item's list, or an empty list when it has no bids. */
  function FindByItemId(l: Ledger, itemId: int): (bs: seq<BidEntity>)
    ensures itemId in l ==> bs == l[itemId]
    ensures itemId !in l ==> bs == []
  {
    if itemId in l then l[itemId] else []
  }

  /** The new ledger and either the stored bid or the exception thrown. */
  datatype SaveResult = SaveResult(ledger: Ledger, outcome: Result<BidEntity, Exception>)

  /** `save`: one sequential, atomic state transition. `now` is the clock reading. */
  function Save(l: Ledger, bid: BidEntity, now: int): (r: SaveResult)
    requires Valid(l)
    ensures Valid(r.ledger)
    ensures r.outcome.Ok? <==> bid.itemId !in l || bid.amount > l[bid.itemId][0].amount
    ensures r.outcome.Ok? ==>
      && r.outcome.value == bid.(submittedAt := Some(now))
      && r.ledger == l[bid.itemId := [r.outcome.value] + FindByItemId(l, bid.itemId)]
    ensures r.outcome.Err? ==>
      && r.ledger == l
      && r.outcome.error == InvalidResource(InvalidBidMessage(bid.itemId, bid.userId), None, [INVALID_BID_REASON])
  {
    var k := bid.itemId;
    var stamped := bid.(submittedAt := Some(now));
    if k !in l then
      assert [stamped] + FindByItemId(l, k) == [stamped];
      SaveResult(l[k := [stamped]], Ok(stamped))
    else if bid.amount > l[k][0].amount then
      SaveResult(l[k := [stamped] + l[k]], Ok(stamped))
    else
      var e := AddReason(NewInvalidResource(InvalidBidMessage(bid.itemId, bid.userId), None), INVALID_BID_REASON);
      SaveResult(l, Err(e))
  }

  /** The first bid on an item is always accepted and becomes the item's only bid;
      every other item keeps its list. */
  lemma SaveFirstBid(l: Ledger, bid: BidEntity, now: int)
    requires Valid(l) && bid.itemId !in l
    ensures Save(l, bid, now).outcome == Ok(bid.(submittedAt := Some(now)))
    ensures FindByItemId(Save(l, bid, now).ledger, bid.itemId) == [bid.(submittedAt := Some(now))]
    ensures forall k :: k != bid.itemId ==> FindByItemId(Save(l, bid, now).ledger, k) == FindByItemId(l, k)
  {
  }

  /** A save touches only the list of the bid's own item. */
  lemma SaveLeavesOtherItems(l: Ledger, bid: BidEntity, now: int, k: int)
    requires Valid(l) && k != bid.itemId
    ensures FindByItemId(Save(l, bid, now).ledger, k) == FindByItemId(l, k)
  {
  }

  /** The highest amount in a non-empty list: a reference definition by scanning. */
  function MaxAmount(bs: seq<BidEntity>): (m: real)
    requires |bs| > 0
    ensures forall i :: 0 <= i < |bs| ==> bs[i].amount <= m
    ensures exists i :: 0 <= i < |bs| && bs[i].amount == m
  {
    if |bs| == 1 then bs[0].amount
    else
      var rest := MaxAmount(bs[1..]);
      assert forall i :: 1 <= i < |bs| ==> bs[i] == bs[1..][i - 1];
      if bs[0].amount >= rest then bs[0].amount else rest
  }

  /** In a strictly decreasing list the head holds the maximum amount, and it is
      the only bid at that amount. */
  lemma {:induction false} HeadIsMaximum(bs: seq<BidEntity>)
    requires |bs| > 0 && StrictlyDecreasing(bs)
    ensures MaxAmount(bs) == bs[0].amount
    ensures forall i :: 0 < i < |bs| ==> bs[i].amount < MaxAmount(bs)
  {
    if |bs| > 1 {
      assert StrictlyDecreasing(bs[1..]);
      HeadIsMaximum(bs[1..]);
    }
  }

  /** Two bids for the same item and the same amount are never both accepted,
      whichever is saved first. */
  lemma EqualBidsNeverBothAccepted(l: Ledger, b1: BidEntity, b2: BidEntity, t1: int, t2: int)
    requires Valid(l)
    requires b1.itemId == b2.itemId && b1.amount == b2.amount
    ensures var r1 := Save(l, b1, t1);
      r1.outcome.Ok? ==> Save(r1.ledger, b2, t2).outcome.Err? && Save(r1.ledger, b2, t2).ledger == r1.ledger
  {
  }

  // ----- queries across items -----

  /** `order` lists every key of `l` exactly once: the iteration order of the map. */
  predicate IsEnumeration(order: seq<int>, l: Ledger) {
    && OrderedSet.NoDuplicates(order)
    && (forall i :: 0 <= i < |order| ==> order[i] in l)
    && (forall k :: k in l ==> k in order)
  }

  /** The lists of the keys in `order`, concatenated. */
  function Concat(l: Ledger, order: seq<int>): seq<BidEntity>
    requires forall i :: 0 <= i < |order| ==> order[i] in l
    decreases |order|
  {
    if order == [] then [] else l[order[0]] + Concat(l, order[1..])
  }

  /** `findAll`: every item's list, in the map's iteration order `order`. */
  function FindAll(l: Ledger, order: seq<int>): (bs: seq<BidEntity>)
    requires IsEnumeration(order, l)
  {
    Concat(l, order)
  }

  /** The bids placed by `userId`, in their original order. */
  function ByUser(bs: seq<BidEntity>, userId: string): (r: seq<BidEntity>)
    ensures |r| <= |bs|
  {
    if bs == [] then []
    else (if bs[0].userId == userId then [bs[0]] else []) + ByUser(bs[1..], userId)
  }

  /** The bids on item `k`, in their original order. */
  function ForItem(bs: seq<BidEntity>, k: int): (r: seq<BidEntity>)
    ensures |r| <= |bs|
  {
    if bs == [] then []
    else (if bs[0].itemId == k then [bs[0]] else []) + ForItem(bs[1..], k)
  }

  /** `findByUserId`: every stored bid of the user, in `findAll` order. */
  function FindByUserId(l: Ledger, order: seq<int>, userId: string): (bs: seq<BidEntity>)
    requires IsEnumeration(order, l)
  {
    ByUser(FindAll(l, order), userId)
  }

  lemma {:induction false} ConcatAppend(l: Ledger, o1: seq<int>, o2: seq<int>)
    requires forall i :: 0 <= i < |o1| ==> o1[i] in l
    requires forall i :: 0 <= i < |o2| ==> o2[i] in l
    ensures Concat(l, o1 + o2) == Concat(l, o1) + Concat(l, o2)
    decreases |o1|
  {
    if o1 == [] {
      assert o1 + o2 == o2;
    } else {
      assert (o1 + o2)[0] == o1[0];
      assert (o1 + o2)[1..] == o1[1..] + o2;
      ConcatAppend(l, o1[1..], o2);
    }
  }

  lemma {:induction false} ConcatMember(l: Ledger, order: seq<int>, b: BidEntity)
    requires forall i :: 0 <= i < |order| ==> order[i] in l
    ensures b in Concat(l, order) <==> exists i :: 0 <= i < |order| && b in l[order[i]]
    decreases |order|
  {
    if order != [] {
      ConcatMember(l, order[1..], b);
      if exists i :: 0 <= i < |order| && b in l[order[i]] {
        var i :| 0 <= i < |order| && b in l[order[i]];
        if i > 0 {
          assert order[1..][i - 1] == order[i];
        }
      }
      if exists i :: 0 <= i < |order[1..]| && b in l[order[1..][i]] {
        var i :| 0 <= i < |order[1..]| && b in l[order[1..][i]];
        assert order[1..][i] == order[i + 1];
      }
    }
  }

  /** Removing one position from a duplicate-free sequence removes exactly that element. */
  lemma RemoveAt(o: seq<int>, j: int)
    requires OrderedSet.NoDuplicates(o) && 0 <= j < |o|
    ensures OrderedSet.NoDuplicates(o[..j] + o[j + 1..])
    ensures forall x :: x in o[..j] + o[j + 1..] <==> x in o && x != o[j]
  {
    var o' := o[..j] + o[j + 1..];
    forall a | 0 <= a < |o'|
      ensures o'[a] == o[if a < j then a else a + 1]
    {
    }
    forall x | x in o && x != o[j]
      ensures x in o'
    {
      var i :| 0 <= i < |o| && o[i] == x;
      assert o'[if i < j then i else i - 1] == x;
    }
  }

  /** Moving one key's list out of the middle of a concatenation keeps the same bids. */
  lemma ConcatExtract(l: Ledger, front: seq<int>, k: int, back: seq<int>)
    requires forall i :: 0 <= i < |front| ==> front[i] in l
    requires forall i :: 0 <= i < |back| ==> back[i] in l
    requires k in l
    ensures multiset(Concat(l, front + [k] + back)) == multiset(l[k]) + multiset(Concat(l, front + back))
  {
    ConcatAppend(l, front + [k], back);
    ConcatAppend(l, front, [k]);
    ConcatAppend(l, front, back);
    assert Concat(l, [k]) == l[k] + Concat(l, []);
  }

  /** The concatenation does not depend on the order the keys are visited in,
      up to rearrangement. */
  lemma {:induction false} ConcatPermutation(l: Ledger, o1: seq<int>, o2: seq<int>)
    requires OrderedSet.NoDuplicates(o1) && OrderedSet.NoDuplicates(o2)
    requires forall i :: 0 <= i < |o1| ==> o1[i] in l
    requires forall i :: 0 <= i < |o2| ==> o2[i] in l
    requires forall k :: k in o1 <==> k in o2
    ensures multiset(Concat(l, o1)) == multiset(Concat(l, o2))
    decreases |o1|
  {
    if o1 == [] {
      assert forall x :: x in multiset(o2) ==> x in o1;
      assert multiset(o2) == multiset{};
    } else {
      var k := o1[0];
      assert k in o2;
      var j :| 0 <= j < |o2| && o2[j] == k;
      var front, back := o2[..j], o2[j + 1..];
      assert o2 == front + [k] + back;
      RemoveAt(o2, j);
      RemoveAt(o1, 0);
      assert o1[..0] + o1[1..] == o1[1..];
      forall x
        ensures x in o1[1..] <==> x in front + back
      {
        assert x in o1[1..] <==> x in o1 && x != k;
        assert x in front + back <==> x in o2 && x != k;
      }
      ConcatPermutation(l, o1[1..], front + back);
      ConcatExtract(l, front, k, back);
    }
  }

  /** `findAll` returns exactly the stored bids. */
  lemma FindAllMembers(l: Ledger, order: seq<int>, b: BidEntity)
    requires IsEnumeration(order, l)
    ensures b in FindAll(l, order) <==> exists k :: k in l && b in l[k]
  {
    ConcatMember(l, order, b);
    if exists k :: k in l && b in l[k] {
      var k :| k in l && b in l[k];
      var i :| 0 <= i < |order| && order[i] == k;
    }
  }

  /** Any two iteration orders give the same bids, each as often. */
  lemma FindAllOrderIndependent(l: Ledger, o1: seq<int>, o2: seq<int>)
    requires IsEnumeration(o1, l) && IsEnumeration(o2, l)
    ensures multiset(FindAll(l, o1)) == multiset(FindAll(l, o2))
    ensures |FindAll(l, o1)| == |FindAll(l, o2)|
  {
    ConcatPermutation(l, o1, o2);
    assert |multiset(FindAll(l, o1))| == |FindAll(l, o1)|;
    assert |multiset(FindAll(l, o2))| == |FindAll(l, o2)|;
  }

  lemma {:induction false} ByUserAppend(a: seq<BidEntity>, b: seq<BidEntity>, userId: string)
    ensures ByUser(a + b, userId) == ByUser(a, userId) + ByUser(b, userId)
    decreases |a|
  {
    if a == [] {
      assert a + b == b;
    } else {
      var h := if a[0].userId == userId then [a[0]] else [];
      assert (a + b)[0] == a[0];
      assert (a + b)[1..] == a[1..] + b;
      assert ByUser(a + b, userId) == h + ByUser(a[1..] + b, userId);
      ByUserAppend(a[1..], b, userId);
      assert ByUser(a, userId) == h + ByUser(a[1..], userId);
      assert h + (ByUser(a[1..], userId) + ByUser(b, userId)) == (h + ByUser(a[1..], userId)) + ByUser(b, userId);
    }
  }

  lemma {:induction false} ForItemAppend(a: seq<BidEntity>, b: seq<BidEntity>, k: int)
    ensures ForItem(a + b, k) == ForItem(a, k) + ForItem(b, k)
    decreases |a|
  {
    if a == [] {
      assert a + b == b;
    } else {
      var h := if a[0].itemId == k then [a[0]] else [];
      assert (a + b)[0] == a[0];
      assert (a + b)[1..] == a[1..] + b;
      assert ForItem(a + b, k) == h + ForItem(a[1..] + b, k);
      ForItemAppend(a[1..], b, k);
      assert ForItem(a, k) == h + ForItem(a[1..], k);
      assert h + (ForItem(a[1..], k) + ForItem(b, k)) == (h + ForItem(a[1..], k)) + ForItem(b, k);
    }
  }

  /** `ByUser` keeps exactly the bids of the user. */
  lemma {:induction false} ByUserMember(bs: seq<BidEntity>, userId: string, b: BidEntity)
    ensures b in ByUser(bs, userId) <==> b in bs && b.userId == userId
    decreases |bs|
  {
    if bs != [] {
      ByUserMember(bs[1..], userId, b);
      assert bs == [bs[0]] + bs[1..];
    }
  }

  /** Selecting by user and selecting by item commute. */
  lemma {:induction false} ForItemByUser(bs: seq<BidEntity>, userId: string, k: int)
    ensures ForItem(ByUser(bs, userId), k) == ByUser(ForItem(bs, k), userId)
    decreases |bs|
  {
    if bs != [] {
      var head := if bs[0].userId == userId then [bs[0]] else [];
      ForItemAppend(head, ByUser(bs[1..], userId), k);
      var head' := if bs[0].itemId == k then [bs[0]] else [];
      ByUserAppend(head', ForItem(bs[1..], k), userId);
      ForItemByUser(bs[1..], userId, k);
      assert ForItem(head, k) == ByUser(head', userId) by {
        if head != [] { assert ForItem(head, k) == (if bs[0].itemId == k then [bs[0]] else []) + ForItem([], k); }
        if head' != [] { assert ByUser(head', userId) == (if bs[0].userId == userId then [bs[0]] else []) + ByUser([], userId); }
      }
    }
  }

  /** A list whose bids are all for item `k'` keeps everything or nothing. */
  lemma {:induction false} ForItemUniform(bs: seq<BidEntity>, k': int, k: int)
    requires forall i :: 0 <= i < |bs| ==> bs[i].itemId == k'
    ensures ForItem(bs, k) == if k == k' then bs else []
    decreases |bs|
  {
    if bs != [] {
      ForItemUniform(bs[1..], k', k);
      assert bs == [bs[0]] + bs[1..];
    }
  }

  /** Selecting item `k` out of the concatenation finds `k`'s own list. */
  lemma {:induction false} ForItemConcat(l: Ledger, order: seq<int>, k: int)
    requires Valid(l)
    requires OrderedSet.NoDuplicates(order)
    requires forall i :: 0 <= i < |order| ==> order[i] in l
    ensures ForItem(Concat(l, order), k) == if k in order then l[k] else []
    decreases |order|
  {
    if order != [] {
      ForItemAppend(l[order[0]], Concat(l, order[1..]), k);
      ForItemUniform(l[order[0]], order[0], k);
      assert OrderedSet.NoDuplicates(order[1..]);
      ForItemConcat(l, order[1..], k);
      assert k in order <==> k == order[0] || k in order[1..];
      if k == order[0] {
        assert k !in order[1..];
        assert l[k] + [] == l[k];
      }
    }
  }

  /** `findByUserId` returns exactly the stored bids whose user is `userId`. */
  lemma FindByUserIdMembers(l: Ledger, order: seq<int>, userId: string, b: BidEntity)
    requires IsEnumeration(order, l)
    ensures b in FindByUserId(l, order, userId) <==> b.userId == userId && exists k :: k in l && b in l[k]
  {
    ByUserMember(FindAll(l, order), userId, b);
    FindAllMembers(l, order, b);
  }

  /** Within one item, `findByUserId` keeps the item's list order (newest first). */
  lemma FindByUserIdPerItemOrder(l: Ledger, order: seq<int>, userId: string, k: int)
    requires Valid(l) && IsEnumeration(order, l)
    ensures ForItem(FindByUserId(l, order, userId), k) == ByUser(FindByItemId(l, k), userId)
  {
    ForItemByUser(FindAll(l, order), userId, k);
    ForItemConcat(l, order, k);
  }

  /** Visiting a new key last appends its one-bid list. */
  lemma ConcatNewKey(l: Ledger, o: seq<int>, k: int, b: BidEntity)
    requires forall i :: 0 <= i < |o| ==> o[i] in l
    requires k !in l
    ensures forall i :: 0 <= i < |o + [k]| ==> (o + [k])[i] in l[k := [b]]
    ensures Concat(l[k := [b]], o + [k]) == Concat(l, o) + [b]
  {
    var l' := l[k := [b]];
    ConcatAppend(l', o, [k]);
    ConcatSame(l, l', o);
    assert Concat(l', [k]) == l'[k] + Concat(l', []);
  }

  /** Pushing a bid onto one visited key's list adds that bid to the concatenation. */
  lemma ConcatPushFront(l: Ledger, o: seq<int>, k: int, b: BidEntity)
    requires OrderedSet.NoDuplicates(o)
    requires forall i :: 0 <= i < |o| ==> o[i] in l
    requires k in o
    ensures multiset(Concat(l[k := [b] + l[k]], o)) == multiset(Concat(l, o)) + multiset{b}
  {
    var l' := l[k := [b] + l[k]];
    var j :| 0 <= j < |o| && o[j] == k;
    var front, back := o[..j], o[j + 1..];
    assert o == front + [k] + back;
    RemoveAt(o, j);
    ConcatExtract(l, front, k, back);
    ConcatExtract(l', front, k, back);
    ConcatSame(l, l', front + back);
  }

  /** A save adds exactly the stamped bid to what `findAll` returns when it is
      accepted, and nothing when it is rejected, whatever the iteration orders. */
  lemma SaveAddsOneBid(l: Ledger, bid: BidEntity, now: int, o: seq<int>, o': seq<int>)
    requires Valid(l)
    requires IsEnumeration(o, l) && IsEnumeration(o', Save(l, bid, now).ledger)
    ensures var r := Save(l, bid, now);
      multiset(FindAll(r.ledger, o')) ==
        multiset(FindAll(l, o)) + (if r.outcome.Ok? then multiset{r.outcome.value} else multiset{})
  {
    var r := Save(l, bid, now);
    var k := bid.itemId;
    if r.outcome.Err? {
      FindAllOrderIndependent(l, o, o');
    } else if k !in l {
      var o2 := o + [k];
      ConcatNewKey(l, o, k, r.outcome.value);
      assert OrderedSet.NoDuplicates(o2) by {
        forall a, b | 0 <= a < b < |o2| ensures o2[a] != o2[b] {
          if b == |o| { assert o2[a] == o[a] && o[a] in l; }
        }
      }
      assert IsEnumeration(o2, r.ledger);
      FindAllOrderIndependent(r.ledger, o2, o');
    } else {
      assert k in o;
      ConcatPushFront(l, o, k, r.outcome.value);
      assert IsEnumeration(o, r.ledger);
      FindAllOrderIndependent(r.ledger, o, o');
    }
  }

  /** Two ledgers that agree on the keys visited give the same concatenation. */
  lemma {:induction false} ConcatSame(l: Ledger, l': Ledger, order: seq<int>)
    requires forall i :: 0 <= i < |order| ==> order[i] in l && order[i] in l' && l[order[i]] == l'[order[i]]
    ensures Concat(l, order) == Concat(l', order)
    decreases |order|
  {
    if order != [] {
      ConcatSame(l, l', order[1..]);
    }
  }

  /** The number of stored bids: the sum of the lengths of all item lists,
      independent of any iteration order. */
  ghost function TotalBids(l: Ledger): nat
    decreases |l.Keys|
  {
    if l == map[] then 0
    else
      var k := PickKey(l);
      assert l.Keys - {k} < l.Keys;
      |l[k]| + TotalBids(l - {k})
  }

  /** Some item of a non-empty ledger. */
  ghost function PickKey(l: Ledger): (k: int)
    requires l != map[]
    ensures k in l
  {
    NonEmptyLedger(l);
    var k :| k in l; k
  }

  lemma NonEmptyLedger(l: Ledger)
    requires l != map[]
    ensures exists k :: k in l
  {
    if forall k :: k !in l {
      assert false;
    }
  }

  /** Any item may be taken out first when adding up the list lengths. */
  lemma {:induction false} TotalBidsRemove(l: Ledger, k: int)
    requires k in l
    ensures TotalBids(l) == |l[k]| + TotalBids(l - {k})
    decreases |l.Keys|
  {
    var j := PickKey(l);
    assert l.Keys - {j} < l.Keys;
    if j != k {
      var lj := l - {j};
      var lk := l - {k};
      assert lj.Keys < l.Keys && lk.Keys < l.Keys;
      TotalBidsRemove(lj, k);
      TotalBidsRemove(lk, j);
      assert lj - {k} == lk - {j};
    }
  }

  /** The concatenation of the lists of an enumeration holds every stored bid once. */
  lemma {:induction false} ConcatTotal(l: Ledger, order: seq<int>)
    requires OrderedSet.NoDuplicates(order)
    requires forall i :: 0 <= i < |order| ==> order[i] in l
    requires forall k :: k in l ==> k in order
    ensures |Concat(l, order)| == TotalBids(l)
    decreases |order|
  {
    if order == [] {
      assert forall k :: k in l.Keys ==> k in order;
      assert l == map[];
    } else {
      var k := order[0];
      var rest := order[1..];
      var l' := l - {k};
      forall i | 0 <= i < |rest| ensures rest[i] in l' && rest[i] in l && l[rest[i]] == l'[rest[i]] {
        assert rest[i] == order[i + 1];
      }
      forall k' | k' in l' ensures k' in rest {
        var i :| 0 <= i < |order| && order[i] == k';
      }
      ConcatSame(l, l', rest);
      ConcatTotal(l', rest);
      TotalBidsRemove(l, k);
    }
  }

  /** `findAll` returns as many bids as are stored in all the item lists together. */
  lemma FindAllSize(l: Ledger, order: seq<int>)
    requires IsEnumeration(order, l)
    ensures |FindAll(l, order)| == TotalBids(l)
  {
    ConcatTotal(l, order);
  }

  // ----- histories of saves -----

  /** One call of `save`: the bid and the clock reading at that moment. */
  datatype Submission = Submission(bid: BidEntity, now: int)

  /** The ledger after a run of saves, with the outcome of each save. */
  datatype History = History(ledger: Ledger, outcomes: seq<Result<BidEntity, Exception>>)

  /** Saves the submissions one after another into a fresh repository. */
  function Replay(subs: seq<Submission>): (h: History)
    ensures Valid(h.ledger) && |h.outcomes| == |subs|
    decreases |subs|
  {
    if subs == [] then History(Empty, [])
    else
      var h := Replay(subs[..|subs| - 1]);
      var s := subs[|subs| - 1];
      var r := Save(h.ledger, s.bid, s.now);
      History(r.ledger, h.outcomes + [r.outcome])
  }

  /** The accepted (stored) bids on item `k`, in submission order. */
  function AcceptedFor(outcomes: seq<Result<BidEntity, Exception>>, k: int): (bs: seq<BidEntity>)
    ensures forall i :: 0 <= i < |bs| ==> bs[i].itemId == k
    decreases |outcomes|
  {
    if outcomes == [] then []
    else
      var last := outcomes[|outcomes| - 1];
      AcceptedFor(outcomes[..|outcomes| - 1], k)
        + (if last.Ok? && last.value.itemId == k then [last.value] else [])
  }

  function Reverse<T>(s: seq<T>): (r: seq<T>)
    ensures |r| == |s|
    ensures forall i :: 0 <= i < |s| ==> r[i] == s[|s| - 1 - i]
  {
    if s == [] then [] else [s[|s| - 1]] + Reverse(s[..|s| - 1])
  }

  lemma AcceptedForSnoc(outs: seq<Result<BidEntity, Exception>>, o: Result<BidEntity, Exception>, k: int)
    ensures AcceptedFor(outs + [o], k) == AcceptedFor(outs, k) + (if o.Ok? && o.value.itemId == k then [o.value] else [])
  {
    assert (outs + [o])[..|outs|] == outs;
  }

  lemma ReverseSnoc<T>(a: seq<T>, x: T)
    ensures Reverse(a + [x]) == [x] + Reverse(a)
  {
    assert (a + [x])[..|a|] == a;
  }

  /** One save keeps "each list is the reverse of its accepted bids". */
  lemma SaveKeepsNewestFirst(l: Ledger, outs: seq<Result<BidEntity, Exception>>, bid: BidEntity, now: int, k: int)
    requires Valid(l)
    requires FindByItemId(l, k) == Reverse(AcceptedFor(outs, k))
    ensures var r := Save(l, bid, now);
      FindByItemId(r.ledger, k) == Reverse(AcceptedFor(outs + [r.outcome], k))
  {
    var r := Save(l, bid, now);
    AcceptedForSnoc(outs, r.outcome, k);
    var a := AcceptedFor(outs, k);
    if r.outcome.Ok? && bid.itemId == k {
      ReverseSnoc(a, r.outcome.value);
    } else {
      assert a + [] == a;
    }
  }

  /** Each item's list is its accepted bids in reverse submission order. */
  lemma {:induction false} ReplayNewestFirst(subs: seq<Submission>, k: int)
    ensures FindByItemId(Replay(subs).ledger, k) == Reverse(AcceptedFor(Replay(subs).outcomes, k))
    decreases |subs|
  {
    if subs != [] {
      var init := subs[..|subs| - 1];
      var s := subs[|subs| - 1];
      ReplayNewestFirst(init, k);
      SaveKeepsNewestFirst(Replay(init).ledger, Replay(init).outcomes, s.bid, s.now, k);
    }
  }

  /** Under this acceptance rule, each accepted bid on an item is for strictly
      more than every bid accepted on it before. */
  lemma AcceptedIncreasing(subs: seq<Submission>, k: int)
    ensures var a := AcceptedFor(Replay(subs).outcomes, k);
      forall i, j :: 0 <= i < j < |a| ==> a[i].amount < a[j].amount
  {
    var h := Replay(subs);
    ReplayNewestFirst(subs, k);
    ReversedDecreasing(FindByItemId(h.ledger, k), AcceptedFor(h.outcomes, k));
  }

  lemma ReversedDecreasing(list: seq<BidEntity>, a: seq<BidEntity>)
    requires StrictlyDecreasing(list) && list == Reverse(a)
    ensures forall i, j :: 0 <= i < j < |a| ==> a[i].amount < a[j].amount
  {
    forall i, j | 0 <= i < j < |a|
      ensures a[i].amount < a[j].amount
    {
      assert list[|a| - 1 - i] == a[i] && list[|a| - 1 - j] == a[j];
    }
  }
}
