/** What a call can return besides its value: the errors that the two services tell apart. */
module Results {

  datatype Error =
    | StoreFailed      // the database connection failed
    | NoRows           // a single-row query found nothing
    | DuplicateKey     // an insert hit the primary key
    | SourceFailed     // the comics site could not be read
    | NotFound         // the comics site has no such comic
    | NormFailed       // the words service failed
    | BadArguments     // the words service found the phrase too long
    | AlreadyExists    // another job is running
    | Cancelled        // the caller's context was cancelled
    | WrongConcurrency // the service was configured without workers
    | NotifyFailed     // the message broker refused the message

  datatype Result<+T> = Success(value: T) | Failure(error: Error)

  datatype Status = Done | Failed(error: Error)

  // ----- what was asked of a service elsewhere -----

  /** A request that left the process, and whether an answer came back. */
  datatype Exchange<+R> = Exchange(request: R, ok: bool)

  /** Exactly this request was made, and this is whether it was answered. */
  ghost predicate Asked<R>(before: seq<Exchange<R>>, after: seq<Exchange<R>>, request: R, ok: bool) {
    after == before + [Exchange(request, ok)]
  }

  /** This request was made first. */
  ghost predicate Begins<R>(before: seq<Exchange<R>>, after: seq<Exchange<R>>, request: R, ok: bool) {
    before + [Exchange(request, ok)] <= after
  }

  /** Every request made was answered, except the last one if it did not go well. */
  ghost predicate Went<R>(before: seq<Exchange<R>>, after: seq<Exchange<R>>, well: bool) {
    && before <= after
    && (forall i :: |before| <= i < |after| - 1 ==> after[i].ok)
    && well == (|after| == |before| || after[|after| - 1].ok)
  }

  lemma WentOn<R>(before: seq<Exchange<R>>, middle: seq<Exchange<R>>, after: seq<Exchange<R>>, request: R, ok: bool)
    requires Went(before, middle, true) && Asked(middle, after, request, ok)
    ensures Went(before, after, ok)
  {
  }

  lemma WentTogether<R>(before: seq<Exchange<R>>, middle: seq<Exchange<R>>, after: seq<Exchange<R>>, well: bool)
    requires Went(before, middle, true) && Went(middle, after, well)
    ensures Went(before, after, well)
  {
  }

  /** Every request made was answered. */
  ghost predicate AllAnswered<R>(before: seq<Exchange<R>>, after: seq<Exchange<R>>) {
    before <= after && forall i :: |before| <= i < |after| ==> after[i].ok
  }

  /** This request was among those made, and this is whether it was answered. */
  ghost predicate Among<R>(before: seq<Exchange<R>>, after: seq<Exchange<R>>, request: R, ok: bool) {
    before <= after && exists i :: |before| <= i < |after| && after[i] == Exchange(request, ok)
  }

  lemma BegunAnswered<R>(before: seq<Exchange<R>>, after: seq<Exchange<R>>, request: R)
    requires Begins(before, after, request, true)
    ensures !Asked(before, after, request, false)
  {
    assert after[|before|].ok;
  }

  lemma AmongLonger<R>(before: seq<Exchange<R>>, after: seq<Exchange<R>>, longer: seq<Exchange<R>>, request: R, ok: bool)
    requires Among(before, after, request, ok) && after <= longer
    ensures Among(before, longer, request, ok)
  {
    var i :| |before| <= i < |after| && after[i] == Exchange(request, ok);
    assert longer[i] == Exchange(request, ok);
  }
}
