/** The `POST /broadcast` handler: an empty message is refused before anything
    is scheduled; otherwise the broadcast runs and its failed list decides
    between a full and a partial success. */
module Endpoint {
  import opened Broadcast

  /** The three JSON replies the handler builds. */
  datatype Reply =
    | MissingMessage                          // {"status": "error", ...}, 400
    | PartialSuccess(failed: seq<UserId>)     // {"status": "partial_success", ...}, 207
    | FullSuccess                             // {"status": "success", ...}, 200

  /** The "status" field of a reply. */
  function Status(r: Reply): string {
    match r
    case MissingMessage => "error"
    case PartialSuccess(_) => "partial_success"
    case FullSuccess => "success"
  }

  /** The HTTP status code of a reply. */
  function Code(r: Reply): int {
    match r
    case MissingMessage => 400
    case PartialSuccess(_) => 207
    case FullSuccess => 200
  }

  /** How a request ends: a reply, or the exception of a lookup that raised,
      re-raised by the wait on the scheduled broadcast and escaping the
      handler. */
  datatype Handled = Replied(reply: Reply) | Propagated(id: UserId)

  /** The reply for a broadcast that returned `failed`: partial success with
      the failed users when there are any, full success otherwise. */
  function Classify(failed: seq<UserId>): (r: Reply)
    ensures r.PartialSuccess? <==> failed != []
    ensures r.FullSuccess? <==> failed == []
    ensures r.PartialSuccess? ==> r.failed == failed
  {
    if failed != [] then PartialSuccess(failed) else FullSuccess
  }

  /** A classified broadcast answers 207 exactly when some user failed and
      200 exactly when none did; it never answers 400. */
  lemma ClassifyCodes(failed: seq<UserId>)
    ensures Code(Classify(failed)) == 207 <==> failed != []
    ensures Code(Classify(failed)) == 200 <==> failed == []
    ensures Code(Classify(failed)) != 400 && Status(Classify(failed)) != "error"
  {
  }

  /** The handler: refuse an empty message with no platform call; otherwise
      run the broadcast and classify what it returns, letting a lookup
      exception escape. */
  method HandleBroadcast(bot: BroadcastBot, msg: string, lookups: seq<Lookup>)
    returns (handled: Handled, calls: seq<Call>)
    requires |lookups| == |bot.userIds|
    ensures msg == [] ==> handled == Replied(MissingMessage) && calls == []
    ensures msg != [] ==> calls == Trace(bot.userIds, lookups, msg)
    ensures msg != [] && Outcome(bot.userIds, lookups).Returned? ==>
      handled == Replied(Classify(Outcome(bot.userIds, lookups).failed))
    ensures msg != [] && Outcome(bot.userIds, lookups).Raised? ==>
      handled == Propagated(Outcome(bot.userIds, lookups).id)
  {
    if msg == [] {
      return Replied(MissingMessage), [];
    }
    var run;
    run, calls := BroadcastMessage(bot, msg, lookups);
    match run {
      case Returned(failed) =>
        handled := Replied(Classify(failed));
      case Raised(id) =>
        handled := Propagated(id);
    }
  }

  /** A broadcast in which no lookup raises and no send raises is a full
      success; in particular one with no users at all. */
  lemma NoFailureIsFullSuccess(ids: seq<UserId>, lookups: seq<Lookup>)
    requires |ids| == |lookups|
    requires forall p :: 0 <= p < |ids| ==> lookups[p] != LookupRaised && lookups[p] != Found(SendRaised)
    ensures Outcome(ids, lookups) == Returned([])
    ensures Classify(Outcome(ids, lookups).failed) == FullSuccess
  {
    OutcomeReturnsIff(ids, lookups);
    NoFailedUsersIff(ids, lookups);
  }

  /** When no lookup raises, the reply is a partial success exactly when some
      found user's send raised; users not found never make it one. */
  lemma PartialIffSendRaised(ids: seq<UserId>, lookups: seq<Lookup>)
    requires |ids| == |lookups|
    requires forall p :: 0 <= p < |ids| ==> lookups[p] != LookupRaised
    ensures Outcome(ids, lookups).Returned?
    ensures Classify(Outcome(ids, lookups).failed).PartialSuccess? <==>
      exists p :: 0 <= p < |ids| && lookups[p] == Found(SendRaised)
  {
    OutcomeReturnsIff(ids, lookups);
    NoFailedUsersIff(ids, lookups);
  }

  /** The mixed case answers 207 and lists only the user whose send raised. */
  lemma MixedReply(a: UserId, b: UserId, c: UserId)
    ensures var lookups := [Found(Delivered), Absent, Found(SendRaised)];
      Classify(Outcome([a, b, c], lookups).failed) == PartialSuccess([c]) &&
      Code(Classify(Outcome([a, b, c], lookups).failed)) == 207
  {
    MixedOutcomes(a, b, c);
  }
}
