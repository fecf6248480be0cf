# Auction bid ledger — a Dafny model

This project models the core of the `auction-service` Spring application: an
in-memory auction house with a fixed catalog of five items and a ledger of
bids. It covers the following parts:

- the bid repository (`BidRepositoryImpl`). It keeps one list of bids per item,
  newest first. A bid is accepted only when its amount is strictly greater than
  the current head of that list, so every list is strictly decreasing in amount.
- the bid and item services.
- the REST controller's request rules (`AuctionController`): path-id parsing,
  body validation, winner selection, and how errors are wrapped.
- the `InvalidResourceException` reason set.
- the `ApiError` builder and the controller's exception-to-response mapping.

Every operation is a pure function of the ledger state and the request. It
returns the new state and either a result or the exception the Java code
would throw, as a `Result`. The time stamp that `Instant.now()` supplies is a
parameter `now`. The iteration order of the ledger's `ConcurrentHashMap` is a
parameter `order` that lists every item with bids exactly once.

Files and modules:

| file | module | models |
|---|---|---|
| results.dfy | `Results` | `Option`, `Result` |
| ordered_set.dfy | `OrderedSet` | `LinkedHashSet` insertion semantics on sequences |
| text.dfy | `Text` | `String.trim`, decimal rendering of `long` |
| controller_utils.dfy | `ControllerUtils` | `Long.parseLong`, `convertStringToResourceId` |
| exceptions.dfy | `Exceptions` | the exception hierarchy, `addReason` |
| api_error.dfy | `ApiErrors` | `ApiError` and its builder, error codes and messages |
| exception_handler.dfy | `ExceptionHandler` | `ControllerExceptionHandler` |
| item_repository.dfy | `ItemRepository` | the seeded catalog |
| item_service.dfy | `ItemService` | `getItem`, `getAllItems` |
| bid_repository.dfy | `BidRepository` | the ledger: `save`, `findByItemId`, `findAll`, `findByUserId` |
| bid_service.dfy | `BidService` | the bid service and the DTO mappings |
| auction_controller.dfy | `AuctionController` | `getItems`, `getAllBidsForItem`, `getWinningBidForItem`, `createBid`, `validateBid` |
| scenarios.dfy | `Scenarios` | concrete runs matching the repository's unit tests |

Where the code and the intended behaviour described for the service
disagree, the model follows the code:

- Each item's bids are stored newest first, because the repository uses
  `addFirst`.
- Acceptance compares against the head of the list only: "strictly greater
  than the current highest".
- The controller selects the winner with a max over amounts that keeps the
  first maximal bid. On a ledger that satisfies the invariant this is always
  the head of the list (`AuctionController.WinningBidIsListHead`).
- The ledger is meant to refuse a non-positive amount even when a caller
  skips validation. `BidRepositoryImpl.save` (lines 42-72) has no such check:
  the first bid on an item is accepted whatever its amount
  (`BidRepository.SaveFirstBid`), and `BidRepository.Save` follows the code.

Where the controller's unit tests expect something other than what the code
does, the model follows the code:

- `AuctionControllerTest.java` lines 574-600 expect 404 for a bid on an
  unknown item. The code gives 422, because `validateBid` turns the not-found
  failure into the reason "does not relate to an existing item".
- Lines 631-648 expect an empty user id to be rejected. The code rejects only a
  missing (null) user id.
- Lines 276-297 and 436-457 expect a 404 with the catalog's not-found message
  when the item lookup fails, for the list of bids and the winning bid. The code
  first calls `isValidItemId` (`AuctionController.java` lines 291-299), which
  catches that failure and answers 422 "Item id : 3, is invalid".
- Line 188 expects the detail "Failed to retrieve auction item(s) on which
  user : ...". The code writes "Failed to retrieve auctions items on which
  user : ..." (`AuctionController.java` line 104).
- Line 319 expects "Failed to retrieve bid(s) on auction item with id : ...".
  The code writes "Failed to retrieve bids on auction item with id : ..."
  (`AuctionController.java` line 146).

The "Item id must be specified" check in `validateBid` cannot fire through
`createBid`. A body without an item id fails the path/body mismatch check
first, which gives a 400 (`AuctionController.EmptyItemIdUnreachable`).

## Model

| member | source | states |
|---|---|---|
| ItemRepository.FindById | auction-service/src/main/java/com/devxpress/auction/repository/ItemRepositoryImpl.java:16-32 | an item is found exactly for ids 1 to 5, and it is the seeded entity with that id |
| ItemRepository.SeedWellFormed | auction-service/src/main/java/com/devxpress/auction/repository/ItemRepositoryImpl.java:16-22 | the catalog holds five distinct entries whose ids are 1 to 5 in insertion order |
| ItemRepository.FindAllInSeedOrder | auction-service/src/main/java/com/devxpress/auction/repository/ItemRepositoryImpl.java:24-27 | `findAll` returns the catalog in insertion order |
| ItemRepository.FindByIdAgreesWithFindAll | auction-service/src/main/java/com/devxpress/auction/repository/ItemRepositoryImpl.java:24-32 | every entity that `findAll` lists is found again by its own id |
| ItemService.GetItem | auction-service/src/main/java/com/devxpress/auction/service/ItemServiceImpl.java:33-40 | succeeds exactly when the repository knows the id, returning that id and its description; otherwise not-found with "Item does not exist for identifier : <id>" and no error code |
| ItemService.GetAllItemsIsMappedSeed | auction-service/src/main/java/com/devxpress/auction/service/ItemServiceImpl.java:26-31 | `getAllItems` is the catalog mapped to items, in catalog order |
| ItemService.GetAllItemsAgreesWithGetItem | auction-service/src/main/java/com/devxpress/auction/service/ItemServiceImpl.java:26-40 | the i-th listed item is exactly what `getItem(i + 1)` returns |
| ItemService.GetItemListed | auction-service/src/main/java/com/devxpress/auction/service/ItemServiceImpl.java:26-40 | `getItem(id)` succeeds if and only if an item with that id is in `getAllItems` |
| Text.Trim | auction-service/src/main/java/com/devxpress/auction/utils/ControllerUtils.java:10-15 | trimming gives the empty string exactly when every character is at most a space; otherwise neither end is such a character |
| Text.TrimSurrounded | auction-service/src/main/java/com/devxpress/auction/utils/ControllerUtils.java:10-15 | whitespace added at either end does not change the trimmed text |
| Text.TrimIdempotent | auction-service/src/main/java/com/devxpress/auction/utils/ControllerUtils.java:10-15 | trimming twice is the same as trimming once |
| Text.ShowNatValue | auction-service/src/main/java/com/devxpress/auction/utils/ControllerUtils.java:14-15 | reading back the decimal digits of a number gives the number |
| ControllerUtils.ParseLong | auction-service/src/main/java/com/devxpress/auction/utils/ControllerUtils.java:14-18 | succeeds exactly when the text is an optional sign and at least one digit whose value fits in 64 bits, and then gives that value, against an independent definition of a signed numeral's value |
| ControllerUtils.ParsePaddedNumeral | auction-service/src/main/java/com/devxpress/auction/utils/ControllerUtils.java:14-18 | a sign, leading zeros and the digits of `n` parse to plus or minus `n` when that fits in 64 bits, so "+5", "007" and "-0" are accepted |
| ControllerUtils.ConvertStringToResourceId | auction-service/src/main/java/com/devxpress/auction/utils/ControllerUtils.java:8-19 | a missing or blank id gives an illegal-argument error with the "empty" message; otherwise it succeeds exactly when the trimmed text is a 64-bit numeral and gives that numeral's value, and fails with an illegal-argument error carrying the "non-numeric" message |
| ControllerUtils.ParseShowInt | auction-service/src/main/java/com/devxpress/auction/utils/ControllerUtils.java:14-15 | every 64-bit value, rendered in decimal, parses back to itself |
| ControllerUtils.ParseShowIntOutOfRange | auction-service/src/main/java/com/devxpress/auction/utils/ControllerUtils.java:14-18 | the decimal text of a value outside the 64-bit range does not parse |
| ControllerUtils.ConvertShowInt | auction-service/src/main/java/com/devxpress/auction/utils/ControllerUtils.java:8-19 | an id path built from a 64-bit value converts back to that value |
| ControllerUtils.ConvertOutOfRange | auction-service/src/main/java/com/devxpress/auction/utils/ControllerUtils.java:14-18 | an id beyond the 64-bit range is rejected with the "non-numeric" message |
| ControllerUtils.ConvertIgnoresSurroundingWhitespace | auction-service/src/main/java/com/devxpress/auction/utils/ControllerUtils.java:10-15 | surrounding whitespace never changes the conversion's outcome |
| ControllerUtils.ConvertNonNumeric | auction-service/src/main/java/com/devxpress/auction/utils/ControllerUtils.java:14-18 | the text "g8763t28dg8" is rejected with the "non-numeric" message |
| Exceptions.AddReason | auction-service/src/main/java/com/devxpress/auction/api/exception/InvalidResourceException.java:27-29 | adding a reason keeps the message and code; a reason already present changes nothing; a new one is appended last; reasons stay distinct |
| Exceptions.AddReasonIdempotent | auction-service/src/main/java/com/devxpress/auction/api/exception/InvalidResourceException.java:27-29 | adding the same reason twice is the same as adding it once |
| Exceptions.AddReasonsFromEmpty | auction-service/src/main/java/com/devxpress/auction/api/exception/InvalidResourceException.java:9-29 | adding a sequence of reasons to a fresh exception leaves its distinct reasons in first-occurrence order |
| Exceptions.AddDistinctReasons | auction-service/src/main/java/com/devxpress/auction/controller/AuctionController.java:236-237 | adding distinct reasons one by one yields exactly those reasons in order |
| OrderedSet.FromSeqFirstOccurrenceOrder | auction-service/src/main/java/com/devxpress/auction/controller/AuctionController.java:93-96 | collecting into an insertion-ordered set keeps elements in the order of their first occurrence |
| OrderedSet.FromSeqNoDuplicates | auction-service/src/main/java/com/devxpress/auction/service/ItemServiceImpl.java:28-30 | collecting a duplicate-free sequence leaves it unchanged |
| OrderedSet.FromSeqMap | auction-service/src/main/java/com/devxpress/auction/controller/AuctionController.java:93-96 | for an injective mapping, deduplicating then mapping equals mapping then deduplicating |
| ApiErrors.CreateInstance | auction-service/src/main/java/com/devxpress/auction/api/ApiError.java:45-53 | a new builder carries the status and has no code, no message and no details |
| ApiErrors.WithCode | auction-service/src/main/java/com/devxpress/auction/api/ApiError.java:55-58 | sets the code and leaves every other field unchanged |
| ApiErrors.WithMessage | auction-service/src/main/java/com/devxpress/auction/api/ApiError.java:60-63 | sets the message and leaves every other field unchanged |
| ApiErrors.WithContextDetail | auction-service/src/main/java/com/devxpress/auction/api/ApiError.java:65-68 | appends one detail and leaves every other field unchanged |
| ApiErrors.Build | auction-service/src/main/java/com/devxpress/auction/api/ApiError.java:70-78 | the error's status name and status code come from the builder's status; code, message and details are copied |
| ApiErrors.WithContextDetailsAppends | auction-service/src/main/java/com/devxpress/auction/controller/ControllerExceptionHandler.java:45-46 | adding a list of details one by one appends them all, in order |
| ApiErrors.SetterOverwrites | auction-service/src/main/java/com/devxpress/auction/api/ApiError.java:55-63 | setting the code or the message twice keeps only the last value |
| ApiErrors.BuildSnapshot | auction-service/src/main/java/com/devxpress/auction/api/ApiError.java:70-78 | a built error holds the builder's details at build time, and a later detail extends only what is built afterwards |
| ExceptionHandler.Handle | auction-service/src/main/java/com/devxpress/auction/controller/ControllerExceptionHandler.java:25-106 | for each exception kind: the HTTP status (400, 422, 409, 404 or 500), the fixed message, whether the error code is kept, and the details (the exception's message, or its reasons when there are any) |
| ExceptionHandler.HandleShape | auction-service/src/main/java/com/devxpress/auction/controller/ControllerExceptionHandler.java:25-106 | every response has at least one detail, and it is a server error exactly for base and runtime exceptions |
| BidRepository.FindByItemId | auction-service/src/main/java/com/devxpress/auction/repository/BidRepositoryImpl.java:28-31 | the item's stored list, or the empty list when the item has no bids |
| BidRepository.Save | auction-service/src/main/java/com/devxpress/auction/repository/BidRepositoryImpl.java:42-72 | keeps every list non-empty and strictly decreasing; accepts exactly when the item has no bids or the amount beats the head; an accepted bid is stamped and pushed on the front; a refusal leaves the ledger unchanged and carries "Invalid bid on item : <id>, for user : <user>" with the single reason "Amount bid must be greater than current highest" |
| BidRepository.SaveFirstBid | auction-service/src/main/java/com/devxpress/auction/repository/BidRepositoryImpl.java:48-52 | the first bid on an item is always accepted and becomes its only bid |
| BidRepository.SaveLeavesOtherItems | auction-service/src/main/java/com/devxpress/auction/repository/BidRepositoryImpl.java:44-69 | saving never changes another item's list |
| BidRepository.HeadIsMaximum | auction-service/src/main/java/com/devxpress/auction/repository/BidRepositoryImpl.java:54-56 | in a strictly decreasing list the head is the maximum amount and every other bid is strictly below it |
| BidRepository.EqualBidsNeverBothAccepted | auction-service/src/main/java/com/devxpress/auction/repository/BidRepositoryImpl.java:56-65 | of two bids of equal amount on the same item, the second is always refused |
| BidRepository.FindAllMembers | auction-service/src/main/java/com/devxpress/auction/repository/BidRepositoryImpl.java:20-26 | a bid is listed by `findAll` exactly when it is stored under some item |
| BidRepository.FindAllOrderIndependent | auction-service/src/main/java/com/devxpress/auction/repository/BidRepositoryImpl.java:20-26 | whatever the map's iteration order, `findAll` returns the same multiset of bids |
| BidRepository.FindAllSize | auction-service/src/main/java/com/devxpress/auction/repository/BidRepositoryImpl.java:20-26 | `findAll` returns as many bids as all the per-item lists hold together |
| BidRepository.TotalBidsRemove | auction-service/src/main/java/com/devxpress/auction/repository/BidRepositoryImpl.java:20-26 | the total bid count is one item's list length plus the count of all other items |
| BidRepository.FindByUserIdMembers | auction-service/src/main/java/com/devxpress/auction/repository/BidRepositoryImpl.java:33-40 | a bid is listed for a user exactly when it is stored and was placed by that user |
| BidRepository.FindByUserIdPerItemOrder | auction-service/src/main/java/com/devxpress/auction/repository/BidRepositoryImpl.java:33-40 | restricted to one item, a user's bids appear in that item's newest-first order |
| BidRepository.SaveAddsOneBid | auction-service/src/main/java/com/devxpress/auction/repository/BidRepositoryImpl.java:42-72 | an accepted save adds exactly the stamped bid to the multiset of all bids, and a refused save changes nothing |
| BidRepository.Replay | auction-service/src/main/java/com/devxpress/auction/repository/BidRepositoryImpl.java:42-72 | any sequence of saves from the empty ledger keeps the ledger invariant and yields one outcome per submission |
| BidRepository.ReplayNewestFirst | auction-service/src/main/java/com/devxpress/auction/repository/BidRepositoryImpl.java:48-58 | after any history, an item's list is the reverse of the accepted bids for it in submission order |
| BidRepository.AcceptedIncreasing | auction-service/src/main/java/com/devxpress/auction/repository/BidRepositoryImpl.java:54-58 | the accepted bids on an item, in submission order, have strictly increasing amounts |
| BidService.ToDetail | auction-service/src/main/java/com/devxpress/auction/api/v1/mapper/BidMapper.java:18-21 | the detail copies item, user and amount, uses the stamp as creation time, and has no description |
| BidService.ToEntity | auction-service/src/main/java/com/devxpress/auction/api/v1/mapper/BidMapper.java:23 | the entity copies item, user and amount and has no stamp yet |
| BidService.GetBidsForItem | auction-service/src/main/java/com/devxpress/auction/service/BidServiceImpl.java:34-43 | one detail per stored bid of the item, each the conversion of the bid at the same position; on a valid ledger each carries the item id and a stamp, and amounts strictly decrease |
| BidService.GetWinningBidForItem | auction-service/src/main/java/com/devxpress/auction/service/BidServiceImpl.java:45-53 | absent exactly when the item has no bids, otherwise the first detail of the list |
| BidService.GetBidsForUser | auction-service/src/main/java/com/devxpress/auction/service/BidServiceImpl.java:55-64 | one detail per bid `findByUserId` returns, each the conversion of the bid at the same position, and every one belongs to the user |
| BidService.CreateBid | auction-service/src/main/java/com/devxpress/auction/service/BidServiceImpl.java:66-70 | accepts exactly when the item has no bids or the amount beats the head; an accepted bid comes back stamped, heads the item's list and is the new winner; a refusal leaves the ledger unchanged and carries the ledger's exact "Invalid bid on item" message and single reason; other items are untouched |
| BidService.WinningBidIsHighest | auction-service/src/main/java/com/devxpress/auction/service/BidServiceImpl.java:45-53 | on a valid ledger the winner is absent exactly when there are no bids, and otherwise its amount is the maximum and all others are strictly lower |
| BidService.GetBidsForUserComplete | auction-service/src/main/java/com/devxpress/auction/service/BidServiceImpl.java:55-64 | every stored bid of the user is returned |
| BidService.GetBidsForUserSound | auction-service/src/main/java/com/devxpress/auction/service/BidServiceImpl.java:55-64 | every returned detail is the conversion of a stored bid of the user |
| BidService.GetAllBidsCount | auction-service/src/main/java/com/devxpress/auction/service/BidServiceImpl.java:23-32 | `getAllBids` returns one detail per stored bid, whatever the iteration order |
| BidService.GetAllBids | auction-service/src/main/java/com/devxpress/auction/service/BidServiceImpl.java:23-32 | one detail per bid `findAll` lists, position for position, as many as all item lists hold together |
| AuctionController.ItemViolation | auction-service/src/main/java/com/devxpress/auction/controller/AuctionController.java:260-267 | an item reason exists exactly when the id is missing or unknown: "Item id must be specified", or "Item id : <id>, does not relate to an existing item" |
| AuctionController.UserViolation | auction-service/src/main/java/com/devxpress/auction/controller/AuctionController.java:275-277 | a user reason exists exactly when the user id is missing |
| AuctionController.AmountViolation | auction-service/src/main/java/com/devxpress/auction/controller/AuctionController.java:279-286 | an amount reason exists exactly when the amount is missing ("must be specified") or not above zero ("must be greater than zero") |
| AuctionController.ValidateBid | auction-service/src/main/java/com/devxpress/auction/controller/AuctionController.java:257-289 | no reasons exactly for a known item, a present user and a positive amount; the reasons are exactly the violated checks, item first and amount last, without duplicates |
| AuctionController.PathId | auction-service/src/main/java/com/devxpress/auction/controller/AuctionController.java:128-129 | blank text fails with "Item id must be specified", text that is not a 64-bit numeral once trimmed fails with the format message quoting the raw text, anything else gives the numeral's value |
| AuctionController.CreateBid | auction-service/src/main/java/com/devxpress/auction/controller/AuctionController.java:216-255 | a blank or malformed path id is the 400 of the path-id conversion, with its exact message, and a path/body mismatch is a 400; both leave the ledger unchanged; validation failures leave it unchanged and carry exactly the validation reasons; a valid bid is accepted exactly when it beats the head, returned with the item's description, and otherwise refused with "Failed to create bid : " plus the ledger's message; bids on every other item are left as they were; the ledger invariant and catalog membership are preserved |
| AuctionController.EmptyItemIdUnreachable | auction-service/src/main/java/com/devxpress/auction/controller/AuctionController.java:221-261 | `createBid` never reports "Item id must be specified" |
| AuctionController.EmptyItemIdNotValidated | auction-service/src/main/java/com/devxpress/auction/controller/AuctionController.java:257-267 | a body that has an item id never draws the missing-item-id reason |
| AuctionController.FirstMaxIndex | auction-service/src/main/java/com/devxpress/auction/controller/AuctionController.java:181-189 | the selected bid's amount is at least every other amount, and every earlier bid is strictly lower |
| AuctionController.FirstMaxIndexUnique | auction-service/src/main/java/com/devxpress/auction/controller/AuctionController.java:181-187 | the first maximal position is the only position with both of those properties |
| AuctionController.SelectWinningBid | auction-service/src/main/java/com/devxpress/auction/controller/AuctionController.java:181-189 | not found with "No winning bid for item id : <id>" exactly for an empty list, else a listed bid of maximal amount that is the first such: every bid before it is strictly lower |
| AuctionController.GetWinningBid | auction-service/src/main/java/com/devxpress/auction/controller/AuctionController.java:165-204 | a blank or malformed path id is the 400 of the path-id conversion; an unknown item is a 422 "Item id : <id>, is invalid"; a known item without bids is a 404 "No winning bid"; on a valid ledger a known item with bids gives the service's winning bid with the catalog description |
| AuctionController.WinningBidIsListHead | auction-service/src/main/java/com/devxpress/auction/controller/AuctionController.java:180-189 | on a valid ledger the controller's max selection agrees with the service's winning bid, the head of the list |
| AuctionController.GetWinningBidSucceeds | auction-service/src/main/java/com/devxpress/auction/controller/AuctionController.java:165-194 | for a known item with bids, the endpoint returns the highest bid with the catalog description |
| AuctionController.WithDescriptions | auction-service/src/main/java/com/devxpress/auction/controller/AuctionController.java:140-141 | enrichment succeeds exactly when every item is known, and then changes only the description of each bid |
| AuctionController.GetAllBidsForItem | auction-service/src/main/java/com/devxpress/auction/controller/AuctionController.java:124-151 | a blank or malformed path id is the 400 of the path-id conversion; an unknown item is a 422 "is invalid"; on a valid ledger a known item gives, position for position, the detail of each stored bid newest first, with the item's description |
| AuctionController.AllBidsAgreeWithWinner | auction-service/src/main/java/com/devxpress/auction/controller/AuctionController.java:124-204 | on a valid ledger the two per-item read endpoints fail alike, the winning bid is the first of all bids, and an item without bids has no winner |
| AuctionController.LookupItems | auction-service/src/main/java/com/devxpress/auction/controller/AuctionController.java:93-95 | succeeds exactly when every id is in the catalog, and then gives the catalog item for each id in order; otherwise fails with the catalog's error for the first unknown id |
| AuctionController.ItemsOfBids | auction-service/src/main/java/com/devxpress/auction/controller/AuctionController.java:93-96 | succeeds exactly when every bid names a catalog item, then yields items without duplicates; otherwise fails with the catalog's not-found error |
| AuctionController.ItemsOfBidsAreCatalogItems | auction-service/src/main/java/com/devxpress/auction/controller/AuctionController.java:93-96 | every collected item is the catalog's own item for its id, description included, and the item of every bid is collected |
| AuctionController.ItemsOfBidsDistinctIds | auction-service/src/main/java/com/devxpress/auction/controller/AuctionController.java:93-96 | when every item is known, the items' ids are the bids' item ids with repeats dropped, in first-occurrence order |
| AuctionController.GetItems | auction-service/src/main/java/com/devxpress/auction/controller/AuctionController.java:80-109 | with no user, all catalog items; with a user, exactly the collected items of the user's bids, or, when collecting them fails, a system exception with the unexpected-error code and the detail "Failed to retrieve auctions items on which user : <u>, has bid - " plus the catalog's message |
| AuctionController.UserBidItemsKnown | auction-service/src/main/java/com/devxpress/auction/controller/AuctionController.java:93-95 | on a running service every item a user has bid on is in the catalog |
| AuctionController.LookupItemsInjective | auction-service/src/main/java/com/devxpress/auction/controller/AuctionController.java:93-96 | looked-up items are told apart by their ids, and mapping them back to ids gives the ids looked up |
| AuctionController.GetItemsDistinctIds | auction-service/src/main/java/com/devxpress/auction/controller/AuctionController.java:93-96 | on a running service the user's items succeed and are the distinct item ids of the user's bids, in first-occurrence order |
| Scenarios.AcceptedStep | auction-service/src/main/java/com/devxpress/auction/repository/BidRepositoryImpl.java:56-58 | an accepted bid is pushed on the front of its item's list |
| Scenarios.FourBidsState | auction-service/src/test/java/com/devxpress/auction/service/BidServiceImplTest.java:106-114 | after the four test bids, item 1 holds 16.00, 12.50, 12.00 newest first and item 3 holds 10.00 |
| Scenarios.FourBids | auction-service/src/test/java/com/devxpress/auction/service/BidServiceImplTest.java:106-177 | the item lists and winners the service tests expect: bob's 16.00 wins item 1, and an item without bids has no winner |
| Scenarios.FourBidsForAlice | auction-service/src/test/java/com/devxpress/auction/service/BidServiceImplTest.java:180-211 | alice's bids are her 12.50 on item 1 and her 10.00 on item 3 |
| Scenarios.EqualBidRefused | auction-service/src/test/java/com/devxpress/auction/service/BidServiceImplTest.java:241-276 | a bid equal to the head is refused with "Invalid bid on item : 1, for user : alice" and its one reason, and the list is unchanged |
| Scenarios.EqualBidCrudFailure | auction-service/src/main/java/com/devxpress/auction/controller/AuctionController.java:241-254 | through the controller that refusal becomes a CRUD failure and leaves the ledger unchanged |
| Scenarios.EqualBidConflict | auction-service/src/main/java/com/devxpress/auction/controller/ControllerExceptionHandler.java:65-74 | the CRUD failure is a 409 whose single detail is "Failed to create bid : Invalid bid on item : 1, for user : alice" |
| Scenarios.MissingFieldsReasons | auction-service/src/main/java/com/devxpress/auction/controller/AuctionController.java:257-289 | an unknown item with neither user nor amount gives three reasons, item first |
| Scenarios.ZeroAmountReason | auction-service/src/main/java/com/devxpress/auction/controller/AuctionController.java:279-283 | a zero amount is the only reason for an otherwise complete body |
| Scenarios.ValidBidAccepted | auction-service/src/main/java/com/devxpress/auction/controller/AuctionController.java:257-289 | a complete body on a catalog item with a positive amount draws no reasons |
| Scenarios.TiedMaximumFirstWins | auction-service/src/test/java/com/devxpress/auction/controller/AuctionControllerTest.java:356-385 | of two bids tied at the highest amount, the first in list order is selected |
| Scenarios.UserItemsFirstOccurrence | auction-service/src/test/java/com/devxpress/auction/controller/AuctionControllerTest.java:136-167 | bids on items 2, 4, 2 and 3 yield the items 2, 4 and 3, in that order |

## Left out

- HTTP routing, Spring wiring, Swagger annotations, JSON serialisation and logging are not modelled. Each handler is a function, and `ErrorResponse` stands for the response entity.
- Concurrency is not modelled. `ConcurrentHashMap.compute` runs atomically per item, so `Save` is one atomic step on an immutable map.
- The clock is not modelled. `Instant.now()` becomes the parameter `now`. The stamp's conversion to a UTC `LocalDateTime` and the ISO timestamp of `ApiError` are left out.
- The map's iteration order is not computed. It is the parameter `order`, and the lemmas prove that the multiset of bids does not depend on it.
- Amounts are exact reals. `BigDecimal.compareTo` ignores scale, so 12.0 and 12.00 compare equal there and are the same value here. The textual scale of amounts is not modelled.
- The MapStruct mappers are modelled as field copies. Their handling of null fields is left out, because entities in the model have no null fields.
- Null messages, and the `ExceptionUtils.getMessage` fallback to the cause or the stack trace, are left out. Every exception in the model has a message.
- ControllerUtils.ParseLong: accepts ASCII digits only. `Long.parseLong` also accepts other Unicode decimal digits.
- BidService.CreateBid: requires a complete bid (item, user and amount present). The controller's validation guarantees this; the service's behaviour on null fields is not modelled.
- AuctionController.GetItems: with no user, the code's catch branch ("Failed to retrieve all auction items") is not modelled, because the catalog lookup cannot fail in the model.
- `ItemController` and `BidController` are thin controllers over the same services and are not part of this model.
- The authentication and authorization messages of `ApiErrorMessage` are defined but used by no handler.
