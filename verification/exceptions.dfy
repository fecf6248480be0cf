/** The service's exception hierarchy as one tagged type. Every exception of
    the `BaseException` family carries an optional integer error code; an
    invalid-resource exception also carries its reasons, an insertion-ordered
    set of strings kept as a duplicate-free sequence. */
module Exceptions {
  import opened Results
  import OrderedSet

  datatype Exception =
    | IllegalArgument(message: string)
    | MissingRequestParameter(message: string)
    | InvalidResource(message: string, errorCode: Option<int>, reasons: seq<string>)
    | StaleResource(message: string, errorCode: Option<int>)
    | ResourceCrud(message: string, errorCode: Option<int>)
    | ResourceNotFound(message: string, errorCode: Option<int>)
    | Base(message: string, errorCode: Option<int>)
    | Runtime(message: string)

  /** A freshly constructed invalid-resource exception: no reasons yet. */
  function NewInvalidResource(message: string, errorCode: Option<int>): (e: Exception)
    ensures e.InvalidResource? && e.reasons == []
    ensures e.message == message && e.errorCode == errorCode
  {
    InvalidResource(message, errorCode, [])
  }

  /** `addReason`: records a reason unless it is already recorded. */
  function AddReason(e: Exception, reason: string): (e': Exception)
    requires e.InvalidResource?
    ensures e'.InvalidResource?
    ensures e'.message == e.message && e'.errorCode == e.errorCode
    ensures reason in e'.reasons
    ensures reason in e.reasons ==> e' == e
    ensures reason !in e.reasons ==> e'.reasons == e.reasons + [reason]
    ensures OrderedSet.NoDuplicates(e.reasons) ==> OrderedSet.NoDuplicates(e'.reasons)
  {
    e.(reasons := OrderedSet.Insert(e.reasons, reason))
  }

  /** `reasons.forEach(ire::addReason)`: adds the reasons one at a time, in order. */
  function AddReasons(e: Exception, rs: seq<string>): (e': Exception)
    requires e.InvalidResource?
    ensures e'.InvalidResource?
    ensures e'.message == e.message && e'.errorCode == e.errorCode
    decreases |rs|
  {
    if rs == [] then e else AddReason(AddReasons(e, rs[..|rs| - 1]), rs[|rs| - 1])
  }

  /** Adding the same reason twice is the same as adding it once. */
  lemma AddReasonIdempotent(e: Exception, reason: string)
    requires e.InvalidResource?
    ensures AddReason(AddReason(e, reason), reason) == AddReason(e, reason)
  {
  }

  /** Starting from no reasons, the recorded reasons are the distinct given
      ones in first-insertion order. */
  lemma {:induction false} AddReasonsFromEmpty(message: string, errorCode: Option<int>, rs: seq<string>)
    ensures AddReasons(NewInvalidResource(message, errorCode), rs).reasons == OrderedSet.FromSeq(rs)
    decreases |rs|
  {
    if rs != [] {
      AddReasonsFromEmpty(message, errorCode, rs[..|rs| - 1]);
    }
  }

  /** Distinct reasons are recorded exactly as given. */
  lemma AddDistinctReasons(message: string, errorCode: Option<int>, rs: seq<string>)
    requires OrderedSet.NoDuplicates(rs)
    ensures AddReasons(NewInvalidResource(message, errorCode), rs).reasons == rs
  {
    AddReasonsFromEmpty(message, errorCode, rs);
    OrderedSet.FromSeqNoDuplicates(rs);
  }
}
