/** The fan-out of `BroadcastBot.broadcast_message`: one lookup per configured
    user, one send per user found, and the list of users whose send raised.

    The chat platform is not part of this model. What `fetch_user` and
    `user.send` do at each position of the user list is given as a `Lookup`
    value, and the calls the bot makes are returned as a trace of `Call`s. */
module Broadcast {

  type UserId = int

  /** The configured bot: its login token and the ordered user list. */
  datatype BroadcastBot = BroadcastBot(token: string, userIds: seq<UserId>)

  /** What `user.send(msg)` does: returns, or raises. */
  datatype Delivery = Delivered | SendRaised

  /** What `fetch_user(id)` does at one position: finds a user (and then the
      send to that user behaves as `send`), finds nothing, or raises. */
  datatype Lookup = Found(send: Delivery) | Absent | LookupRaised

  /** A call the bot makes into the chat platform. */
  datatype Call = FetchUser(id: UserId) | SendTo(id: UserId, msg: string)

  /** How `broadcast_message` ends: it returns the failed users, or the
      exception raised by the lookup of `id` escapes it. */
  datatype Run = Returned(failed: seq<UserId>) | Raised(id: UserId)

  // ------------------------------------------------------------ specification

  /** The first position whose lookup raises, or |lookups| when none does. */
  function FirstRaise(lookups: seq<Lookup>): (k: nat)
    ensures k <= |lookups|
    ensures k < |lookups| ==> lookups[k] == LookupRaised
    ensures forall i :: 0 <= i < k ==> lookups[i] != LookupRaised
    decreases |lookups|
  {
    if lookups == [] || lookups[0] == LookupRaised then 0
    else 1 + FirstRaise(lookups[1..])
  }

  /** The users at the positions whose user was found and whose send raised,
      in list order. */
  function FailedUsers(ids: seq<UserId>, lookups: seq<Lookup>): (r: seq<UserId>)
    requires |ids| == |lookups|
    ensures |r| <= |ids|
    decreases |ids|
  {
    if ids == [] then []
    else
      var n := |ids| - 1;
      FailedUsers(ids[..n], lookups[..n]) + (if lookups[n] == Found(SendRaised) then [ids[n]] else [])
  }

  /** The calls made for one user: the lookup, then the send if it found one. */
  function CallsFor(id: UserId, lookup: Lookup, msg: string): seq<Call> {
    [FetchUser(id)] + (if lookup.Found? then [SendTo(id, msg)] else [])
  }

  /** The calls made for every user of `ids`, in list order. */
  function Calls(ids: seq<UserId>, lookups: seq<Lookup>, msg: string): seq<Call>
    requires |ids| == |lookups|
    decreases |ids|
  {
    if ids == [] then []
    else
      var n := |ids| - 1;
      Calls(ids[..n], lookups[..n], msg) + CallsFor(ids[n], lookups[n], msg)
  }

  /** How a broadcast over `ids` ends. */
  function Outcome(ids: seq<UserId>, lookups: seq<Lookup>): Run
    requires |ids| == |lookups|
  {
    var k := FirstRaise(lookups);
    if k < |ids| then Raised(ids[k]) else Returned(FailedUsers(ids, lookups))
  }

  /** The calls a broadcast over `ids` makes: every user up to the first
      lookup that raises, and that lookup. */
  function Trace(ids: seq<UserId>, lookups: seq<Lookup>, msg: string): seq<Call>
    requires |ids| == |lookups|
  {
    var k := FirstRaise(lookups);
    Calls(ids[..k], lookups[..k], msg) + (if k < |ids| then [FetchUser(ids[k])] else [])
  }

  // ------------------------------------------------------------ the loop

  /** Extending a prefix of the list by one user extends the failed list and
      the calls by what that user contributes. */
  lemma PrefixStep(ids: seq<UserId>, lookups: seq<Lookup>, msg: string, i: nat)
    requires |ids| == |lookups| && i < |ids|
    ensures FailedUsers(ids[..i + 1], lookups[..i + 1]) ==
      FailedUsers(ids[..i], lookups[..i]) + (if lookups[i] == Found(SendRaised) then [ids[i]] else [])
    ensures Calls(ids[..i + 1], lookups[..i + 1], msg) ==
      Calls(ids[..i], lookups[..i], msg) + CallsFor(ids[i], lookups[i], msg)
  {
    assert ids[..i + 1][..i] == ids[..i] && lookups[..i + 1][..i] == lookups[..i];
  }

  /** `BroadcastBot.broadcast_message(msg)`: for each user in order, look the
      user up; if found, send and record the user when the send raises; if
      not found, go on. A lookup that raises ends the run. */
  method BroadcastMessage(bot: BroadcastBot, msg: string, lookups: seq<Lookup>)
    returns (run: Run, calls: seq<Call>)
    requires |lookups| == |bot.userIds|
    ensures run == Outcome(bot.userIds, lookups)
    ensures calls == Trace(bot.userIds, lookups, msg)
  {
    var ids := bot.userIds;
    var failed: seq<UserId> := [];
    calls := [];
    var i := 0;
    while i < |ids|
      invariant i <= |ids| && i <= FirstRaise(lookups)
      invariant failed == FailedUsers(ids[..i], lookups[..i])
      invariant calls == Calls(ids[..i], lookups[..i], msg)
    {
      PrefixStep(ids, lookups, msg, i);
      var id := ids[i];
      calls := calls + [FetchUser(id)];
      match lookups[i] {
        case LookupRaised =>
          run := Raised(id);
          return;
        case Found(delivery) =>
          calls := calls + [SendTo(id, msg)];
          if delivery == SendRaised {
            failed := failed + [id];
          }
        case Absent =>
      }
      i := i + 1;
    }
    assert ids[..i] == ids && lookups[..i] == lookups;
    run := Returned(failed);
  }

  // ------------------------------------------------------------ properties

  /** The positions whose user was found and whose send raised, ascending. */
  function FailedPositions(lookups: seq<Lookup>): (ps: seq<nat>)
    ensures forall j :: 0 <= j < |ps| ==> ps[j] < |lookups| && lookups[ps[j]] == Found(SendRaised)
    ensures forall p :: 0 <= p < |lookups| && lookups[p] == Found(SendRaised) ==> p in ps
    ensures forall j, j' :: 0 <= j < j' < |ps| ==> ps[j] < ps[j']
    decreases |lookups|
  {
    if lookups == [] then []
    else
      var n := |lookups| - 1;
      FailedPositions(lookups[..n]) + (if lookups[n] == Found(SendRaised) then [n] else [])
  }

  /** `failed_users` is exactly the subsequence of the user list taken at the
      positions whose send raised. */
  lemma {:induction false} FailedUsersAtPositions(ids: seq<UserId>, lookups: seq<Lookup>)
    requires |ids| == |lookups|
    ensures var r, ps := FailedUsers(ids, lookups), FailedPositions(lookups);
      |r| == |ps| && forall j :: 0 <= j < |r| ==> r[j] == ids[ps[j]]
    decreases |ids|
  {
    if ids != [] {
      var n := |ids| - 1;
      FailedUsersAtPositions(ids[..n], lookups[..n]);
    }
  }

  /** A user is in `failed_users` exactly when some position holding that
      user found it and its send raised. */
  lemma FailedUsersMembership(ids: seq<UserId>, lookups: seq<Lookup>, x: UserId)
    requires |ids| == |lookups|
    ensures x in FailedUsers(ids, lookups) <==>
      exists p :: 0 <= p < |ids| && ids[p] == x && lookups[p] == Found(SendRaised)
  {
    var r, ps := FailedUsers(ids, lookups), FailedPositions(lookups);
    FailedUsersAtPositions(ids, lookups);
    if x in r {
      var j :| 0 <= j < |r| && r[j] == x;
      assert ids[ps[j]] == x;
    }
    if p :| 0 <= p < |ids| && ids[p] == x && lookups[p] == Found(SendRaised) {
      var j :| 0 <= j < |ps| && ps[j] == p;
      assert r[j] == x;
    }
  }

  /** No send failed exactly when `failed_users` is empty. */
  lemma NoFailedUsersIff(ids: seq<UserId>, lookups: seq<Lookup>)
    requires |ids| == |lookups|
    ensures FailedUsers(ids, lookups) == [] <==>
      forall p :: 0 <= p < |ids| ==> lookups[p] != Found(SendRaised)
  {
    var r := FailedUsers(ids, lookups);
    if r != [] {
      FailedUsersMembership(ids, lookups, r[0]);
    }
    forall p | 0 <= p < |ids| && r == []
      ensures lookups[p] != Found(SendRaised)
    {
      FailedUsersMembership(ids, lookups, ids[p]);
    }
  }

  /** A user whose lookups all found nothing is never in `failed_users`:
      not-found users are only logged. (A user listed twice is looked up
      twice, and each lookup may end differently.) */
  lemma AbsentNeverFailed(ids: seq<UserId>, lookups: seq<Lookup>, p: nat)
    requires |ids| == |lookups|
    requires p < |ids|
    requires forall q :: 0 <= q < |ids| && ids[q] == ids[p] ==> lookups[q] == Absent
    ensures ids[p] !in FailedUsers(ids, lookups)
  {
    FailedUsersMembership(ids, lookups, ids[p]);
  }

  /** The users looked up, in call order. */
  function Fetched(calls: seq<Call>): seq<UserId> {
    if calls == [] then []
    else (if calls[0].FetchUser? then [calls[0].id] else []) + Fetched(calls[1..])
  }

  lemma {:induction false} FetchedAppend(a: seq<Call>, b: seq<Call>)
    ensures Fetched(a + b) == Fetched(a) + Fetched(b)
    decreases |a|
  {
    if a != [] {
      FetchedAppend(a[1..], b);
      assert (a + b)[0] == a[0] && (a + b)[1..] == a[1..] + b;
    } else {
      assert a + b == b;
    }
  }

  /** Every user of the list is looked up exactly once, in list order, and
      every send carries the broadcast message. */
  lemma {:induction false} CallsVisitEachUser(ids: seq<UserId>, lookups: seq<Lookup>, msg: string)
    requires |ids| == |lookups|
    ensures Fetched(Calls(ids, lookups, msg)) == ids
    ensures forall c :: c in Calls(ids, lookups, msg) && c.SendTo? ==> c.msg == msg
    decreases |ids|
  {
    if ids != [] {
      var n := |ids| - 1;
      CallsVisitEachUser(ids[..n], lookups[..n], msg);
      var last := CallsFor(ids[n], lookups[n], msg);
      FetchedAppend(Calls(ids[..n], lookups[..n], msg), last);
      assert Fetched(last) == [ids[n]] by {
        var tail := if lookups[n].Found? then [SendTo(ids[n], msg)] else [];
        assert last[0] == FetchUser(ids[n]) && last[1..] == tail;
        assert Fetched(tail) == [] by {
          if tail != [] {
            assert tail[1..] == [];
          }
        }
      }
      assert ids == ids[..n] + [ids[n]];
    }
  }

  /** A run looks up the users in order up to and including the first lookup
      that raises; a send that raises never stops it. When no lookup raises,
      every user is looked up exactly once. */
  lemma VisitsUntilLookupRaises(ids: seq<UserId>, lookups: seq<Lookup>, msg: string)
    requires |ids| == |lookups|
    ensures var k := FirstRaise(lookups);
      Fetched(Trace(ids, lookups, msg)) == if k < |ids| then ids[..k + 1] else ids
  {
    var k := FirstRaise(lookups);
    CallsVisitEachUser(ids[..k], lookups[..k], msg);
    if k < |ids| {
      FetchedAppend(Calls(ids[..k], lookups[..k], msg), [FetchUser(ids[k])]);
      assert ids[..k + 1] == ids[..k] + [ids[k]];
    } else {
      var calls := Calls(ids[..k], lookups[..k], msg);
      assert Trace(ids, lookups, msg) == calls + [] == calls;
      assert ids[..k] == ids;
    }
  }

  /** The positions whose lookup found a user, ascending. */
  function FoundPositions(lookups: seq<Lookup>): (ps: seq<nat>)
    ensures forall j :: 0 <= j < |ps| ==> ps[j] < |lookups| && lookups[ps[j]].Found?
    ensures forall p :: 0 <= p < |lookups| && lookups[p].Found? ==> p in ps
    ensures forall j, j' :: 0 <= j < j' < |ps| ==> ps[j] < ps[j']
    decreases |lookups|
  {
    if lookups == [] then []
    else
      var n := |lookups| - 1;
      FoundPositions(lookups[..n]) + (if lookups[n].Found? then [n] else [])
  }

  /** The users sent to, in call order. */
  function Sent(calls: seq<Call>): seq<UserId> {
    if calls == [] then []
    else (if calls[0].SendTo? then [calls[0].id] else []) + Sent(calls[1..])
  }

  lemma {:induction false} SentAppend(a: seq<Call>, b: seq<Call>)
    ensures Sent(a + b) == Sent(a) + Sent(b)
    decreases |a|
  {
    if a != [] {
      SentAppend(a[1..], b);
      assert (a + b)[0] == a[0] && (a + b)[1..] == a[1..] + b;
    } else {
      assert a + b == b;
    }
  }

  /** Processing the list sends to exactly the users found, once per
      position found, in list order. */
  lemma {:induction false} CallsSendToFound(ids: seq<UserId>, lookups: seq<Lookup>, msg: string)
    requires |ids| == |lookups|
    ensures var r, ps := Sent(Calls(ids, lookups, msg)), FoundPositions(lookups);
      |r| == |ps| && forall j :: 0 <= j < |r| ==> r[j] == ids[ps[j]]
    decreases |ids|
  {
    if ids != [] {
      var n := |ids| - 1;
      CallsSendToFound(ids[..n], lookups[..n], msg);
      var last := CallsFor(ids[n], lookups[n], msg);
      SentAppend(Calls(ids[..n], lookups[..n], msg), last);
      assert Sent(last) == if lookups[n].Found? then [ids[n]] else [] by {
        var tail := if lookups[n].Found? then [SendTo(ids[n], msg)] else [];
        assert last[0] == FetchUser(ids[n]) && last[1..] == tail;
        assert Sent(last) == Sent(tail);
        if lookups[n].Found? {
          assert tail[0] == SendTo(ids[n], msg) && tail[1..] == [];
        }
      }
    }
  }

  /** Every send goes to the user looked up by the call just before it. */
  lemma {:induction false} SendFollowsFetch(ids: seq<UserId>, lookups: seq<Lookup>, msg: string)
    requires |ids| == |lookups|
    ensures forall i :: 0 <= i < |Calls(ids, lookups, msg)| && Calls(ids, lookups, msg)[i].SendTo? ==>
      0 < i && Calls(ids, lookups, msg)[i - 1] == FetchUser(Calls(ids, lookups, msg)[i].id)
    decreases |ids|
  {
    if ids != [] {
      var n := |ids| - 1;
      SendFollowsFetch(ids[..n], lookups[..n], msg);
      var prev, last := Calls(ids[..n], lookups[..n], msg), CallsFor(ids[n], lookups[n], msg);
      var calls := Calls(ids, lookups, msg);
      assert calls == prev + last;
      forall i | 0 <= i < |calls| && calls[i].SendTo?
        ensures 0 < i && calls[i - 1] == FetchUser(calls[i].id)
      {
        if i >= |prev| {
          assert calls[i] == last[i - |prev|];
          assert i - |prev| == 1;
          assert calls[i - 1] == last[0];
        } else {
          assert calls[i] == prev[i];
        }
      }
    }
  }

  /** A run sends the broadcast message to exactly the users found before the
      first lookup that raises, in list order; a send that raises never stops
      it, and a user not found gets no send. */
  lemma SendsUntilLookupRaises(ids: seq<UserId>, lookups: seq<Lookup>, msg: string)
    requires |ids| == |lookups|
    ensures var k := FirstRaise(lookups);
      var r, ps := Sent(Trace(ids, lookups, msg)), FoundPositions(lookups[..k]);
      |r| == |ps| && forall j :: 0 <= j < |r| ==> ps[j] < k && r[j] == ids[ps[j]]
    ensures forall c :: c in Trace(ids, lookups, msg) && c.SendTo? ==> c.msg == msg
  {
    var k := FirstRaise(lookups);
    var calls := Calls(ids[..k], lookups[..k], msg);
    var tail := if k < |ids| then [FetchUser(ids[k])] else [];
    assert Trace(ids, lookups, msg) == calls + tail;
    CallsSendToFound(ids[..k], lookups[..k], msg);
    CallsVisitEachUser(ids[..k], lookups[..k], msg);
    SentAppend(calls, tail);
    assert Sent(tail) == [] by {
      if tail != [] {
        assert tail[1..] == [];
      }
    }
  }

  /** A run returns `failed_users` exactly when no lookup raises, and otherwise
      raises for the user at the first position whose lookup raised. */
  lemma OutcomeReturnsIff(ids: seq<UserId>, lookups: seq<Lookup>)
    requires |ids| == |lookups|
    ensures Outcome(ids, lookups).Returned? <==>
      forall p :: 0 <= p < |ids| ==> lookups[p] != LookupRaised
    ensures Outcome(ids, lookups).Raised? ==>
      FirstRaise(lookups) < |ids| && Outcome(ids, lookups).id == ids[FirstRaise(lookups)]
  {
  }

  /** The mixed case: user A delivered, user B not found, user C's send
      raised. Only C is reported; B is not. */
  lemma MixedOutcomes(a: UserId, b: UserId, c: UserId)
    ensures Outcome([a, b, c], [Found(Delivered), Absent, Found(SendRaised)]) == Returned([c])
  {
    var ids, lookups := [a, b, c], [Found(Delivered), Absent, Found(SendRaised)];
    assert lookups[1..][1..][1..] == [];
    assert FirstRaise(lookups) == 3;
    assert ids[..2] == [a, b] && lookups[..2] == [Found(Delivered), Absent];
    assert ids[..2][..1] == [a] && lookups[..2][..1] == [Found(Delivered)];
    assert FailedUsers(ids[..2], lookups[..2]) == [];
  }
}
