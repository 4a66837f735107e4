# BroadcastBot, modelled in Dafny

BroadcastBot is a small service that relays one text message, posted to an
HTTP endpoint, to a fixed list of Discord users, and reports which users the
message could not be sent to. This project models the three pieces of its
own logic in `src/main.py` and proves properties of them:

- **Start-up** (`Startup`, with Python's string helpers in `Text`): the bot
  token and the `DISCORD_USER_IDS` string are checked, then the string is
  split on `,`, each piece is stripped, blank pieces are dropped and the rest
  are converted with `int()`, in order. `Text` models `str.split`,
  `str.strip` (with Python's full set of whitespace characters) and `int()`
  on decimal literals, each with its inverse or its characterising lemma.
- **The fan-out** (`Broadcast`): `broadcast_message` loops over the user list,
  looks each user up, sends to each user found, and collects the users whose
  send raised. What Discord does is an input: one `Lookup` per position of the
  user list (found, with the send returning or raising; not found; or the
  lookup itself raising). The method returns how the run ended and the trace
  of platform calls it made, and is proved equal to a specification
  (`Outcome`, `Trace`). Lemmas state which users are reported as failed,
  which are looked up, and which are sent the message.
- **The handler** (`Endpoint`): an empty message gets the 400 error reply with
  no platform call; otherwise the broadcast runs and a non-empty failed list
  gives `partial_success`/207, an empty one `success`/200.

Three behaviours of the code are kept exactly as written, including where
they may not be what a reader of the endpoint expects:

- A user whose lookup finds nothing is only logged and is **not** put in the
  failed list (`src/main.py:65-66`), so it never turns a success into a
  partial success. `Broadcast.AbsentNeverFailed` and `Broadcast.MixedOutcomes`
  state this.
- An exception from the lookup is not caught: `fetch_user` is called outside
  the `try` (`src/main.py:57`), so it ends the whole broadcast and escapes
  the handler (`Run.Raised`, `Handled.Propagated`).
- An exception from the send is caught, the user is recorded and the loop
  goes on (`src/main.py:59-64`).

Files: `wrappers.dfy` (Option, Result), `text.dfy`, `startup.dfy`,
`broadcast.dfy`, `endpoint.dfy`.

## Model

| member | source | states |
|---|---|---|
| `Text.Split` | src/main.py:92 | `str.split(sep)` gives at least one piece and no piece contains the separator |
| `Text.JoinSplit` | src/main.py:92 | joining the pieces of a split with the separator gives back the string |
| `Text.SplitJoin` | src/main.py:92 | splitting a join of separator-free pieces gives back the pieces |
| `Text.TrimStartSpec` | src/main.py:92 | the left strip keeps a suffix, removes only whitespace, and what remains does not start with whitespace |
| `Text.TrimEndSpec` | src/main.py:92 | the right strip keeps a prefix, removes only whitespace, and what remains does not end with whitespace |
| `Text.StripIsInfix` | src/main.py:92 | `strip()` keeps a contiguous infix with only whitespace on both sides, neither starting nor ending with whitespace |
| `Text.StripEmptyIff` | src/main.py:92 | a piece strips to the empty string exactly when it is all whitespace (the comprehension's `if uid.strip()` filter) |
| `Text.StripIdempotent` | src/main.py:92 | stripping a stripped string changes nothing |
| `Text.StripAddsNothing` | src/main.py:92 | a character absent from a piece is absent from its stripped form |
| `Text.ParseDecimal` | src/main.py:92 | `int()` on a literal succeeds exactly when it is a non-empty string of decimal digits no longer than Python's default cap of 4300 digits |
| `Text.ShowDecimal` | src/main.py:92 | the decimal rendering of a number is a non-empty digit string without a superfluous leading zero |
| `Text.ValueOfShowDecimal` | src/main.py:92 | the digits printed for a number have that number as their value |
| `Text.ParseShowDecimal` | src/main.py:92 | reading back the decimal rendering of a number gives the number whenever the rendering is within the 4300-digit cap |
| `Text.ShowParseDecimal` | src/main.py:92 | rendering the value of a literal without leading zeros gives back the literal |
| `Startup.ConvertTokens` | src/main.py:92 | converting the tokens fails only with an invalid-ID error |
| `Startup.ConvertTokensOkIff` | src/main.py:92 | conversion succeeds exactly when every token is a decimal literal |
| `Startup.ConvertTokensValues` | src/main.py:92 | on success there is one ID per token, each the value of its token, in token order |
| `Startup.ConvertTokensFirstError` | src/main.py:92 | on failure the error names the first token that is not a literal, every earlier token being one |
| `Startup.TokensAreStripped` | src/main.py:92 | every kept token is non-empty, already stripped and comma-free |
| `Startup.KeptPositionsSound` | src/main.py:92 | every kept position is a piece of the split whose stripped form is non-empty |
| `Startup.KeptPositionsComplete` | src/main.py:92 | every piece whose stripped form is non-empty has its position kept, whatever blank pieces come before it |
| `Startup.KeptPositionsAscending` | src/main.py:92 | the kept positions are in ascending order |
| `Startup.TokensAtPositions` | src/main.py:92 | the comprehension's values are `uid.strip()` of the pieces at the kept positions, one per position, in order |
| `Startup.ParseUserIdsCorrect` | src/main.py:92 | the kept positions are exactly the pieces of `split(",")` whose stripped form is non-empty, ascending; parsing succeeds exactly when each of those stripped pieces is a literal, and then the j-th ID is the value of the j-th such stripped piece, with as many IDs as such pieces |
| `Startup.OnlySeparatorsGiveNoUsers` | src/main.py:92 | the comprehension turns a string made only of commas and whitespace into the empty list |
| `Startup.EmptyPieceBetweenIds` | src/main.py:92 | `"1,,2"` yields `[1, 2]` |
| `Startup.SpacedIdsKept` | src/main.py:92 | `" 1 , 2 "` yields `[1, 2]`: whitespace around an ID is stripped and the ID kept |
| `Startup.OverCapIdRefused` | src/main.py:92 | a user list holding one literal longer than 4300 digits fails with the invalid-ID error naming that literal |
| `Startup.BlankPieceOnly` | src/main.py:92 | `" , "` yields the empty list |
| `Startup.ParseRender` | src/main.py:92 | writing a list of IDs comma-separated and parsing it gives back the list, in order, when no ID is printed with more than 4300 digits |
| `Startup.LoadConfig` | src/main.py:82-92 | a missing or empty token raises first, then a missing or empty user list; with both present, a user list that does not parse gives exactly its parse error (the first invalid piece); only otherwise is a bot built, with the token and the parsed users |
| `Startup.SeparatorsOnlyBot` | src/main.py:85-92 | a non-empty user list of separators only passes the emptiness check and builds a bot with no users |
| `Broadcast.FirstRaise` | src/main.py:56-57 | the first position whose lookup raises (every earlier lookup does not), or the list length when none does |
| `Broadcast.FailedUsers` | src/main.py:55-68 | the failed list is never longer than the user list |
| `Broadcast.FailedPositions` | src/main.py:58-64 | the positions recorded as failed are ascending and are exactly those whose user was found and whose send raised |
| `Broadcast.BroadcastMessage` | src/main.py:53-68 | the loop returns exactly the specified outcome (the failed users, or the exception of the first lookup that raises) and makes exactly the specified calls |
| `Broadcast.FailedUsersAtPositions` | src/main.py:55-68 | `failed_users` is the subsequence of the user list taken at the failed positions, in order |
| `Broadcast.FailedUsersMembership` | src/main.py:58-64 | a user is in `failed_users` exactly when some position holding it was found and its send raised |
| `Broadcast.NoFailedUsersIff` | src/main.py:58-68 | `failed_users` is empty exactly when no found user's send raised |
| `Broadcast.AbsentNeverFailed` | src/main.py:58-66 | a user whose every lookup in the list found nothing is never in `failed_users` (each listing of a user is its own lookup) |
| `Broadcast.CallsVisitEachUser` | src/main.py:56-60 | processing the list looks up every user exactly once, in list order, and every send carries the broadcast message |
| `Broadcast.VisitsUntilLookupRaises` | src/main.py:56-64 | a run looks users up in order up to and including the first lookup that raises; a raising send never stops it; with no raising lookup every user is looked up once |
| `Broadcast.FoundPositions` | src/main.py:57-58 | the positions whose lookup found a user, ascending, and every such position |
| `Broadcast.CallsSendToFound` | src/main.py:56-60 | processing the list sends to exactly the users found, one send per position found, in list order |
| `Broadcast.SendFollowsFetch` | src/main.py:57-60 | every send goes to the user looked up by the call just before it |
| `Broadcast.SendsUntilLookupRaises` | src/main.py:54-64 | a run sends the message to exactly the users found before the first lookup that raises, in list order; not-found users get no send; every send carries the broadcast message |
| `Broadcast.OutcomeReturnsIff` | src/main.py:56-68 | the run returns its failed list exactly when no lookup raises, and otherwise raises for the user at the first position whose lookup raised |
| `Broadcast.MixedOutcomes` | src/main.py:55-68 | users A delivered, B not found, C send raised: the run returns `[C]` |
| `Endpoint.Classify` | src/main.py:43-51 | a non-empty failed list gives a partial success carrying that list, an empty one a full success |
| `Endpoint.ClassifyCodes` | src/main.py:43-51 | the reply code is 207 exactly when the failed list is non-empty and 200 exactly when it is empty; never the 400 error |
| `Endpoint.HandleBroadcast` | src/main.py:30-51 | an empty message gets the 400 reply and no platform call is made; otherwise the calls are those of the broadcast and the reply classifies its failed list, or its lookup exception escapes |
| `Endpoint.NoFailureIsFullSuccess` | src/main.py:43-51 | a run with no raising lookup and no raising send, including one over no users, returns `[]` and is a full success |
| `Endpoint.PartialIffSendRaised` | src/main.py:43-47 | with no raising lookup, the reply is a partial success exactly when some found user's send raised |
| `Endpoint.MixedReply` | src/main.py:43-47 | the mixed case's run is classified as a partial success listing only `C`, and its code is 207 |

## Left out

- The hand-off of the broadcast to the Discord event loop and the wait for its result (`src/main.py:38-41`) and the background server thread (`src/main.py:76`): concurrency. The model runs the broadcast directly in the handler. The code has no timeout and no session-unavailable path.
- The Discord client (`src/main.py:19-24`, `77`) and the internals of `fetch_user` and `send` (`src/main.py:57`, `60`): a foreign library. Their effect is the `Lookup` given for each position of the user list, so `BroadcastMessage` and `HandleBroadcast` require one `Lookup` per user.
- FastAPI and uvicorn (`src/main.py:27-30`, `70-72`): network I/O and JSON encoding. A reply is one of three values with its "status" string and HTTP code. The "message" texts and the interpolated failed list of `src/main.py:45` are not modelled. A request without the `msg` parameter is answered by the framework, and an escaping lookup exception becomes the framework's error response; neither is modelled beyond `Handled.Propagated`.
- `print` logging (`src/main.py:24`, `61`, `63`, `66`): output only.
- `os.getenv` (`src/main.py:82-83`): the environment values are parameters of `LoadConfig`.
- `Text.ParseDecimal`: accepts ASCII decimal digits only; Python's `int()` also accepts a leading sign, underscores between digits and non-ASCII decimal digits, which the model rejects as invalid IDs. The 4300-digit cap is the interpreter's default (Python 3.11 and later, and the security releases 3.10.7, 3.9.14, 3.8.14, 3.7.14); changing it with `sys.set_int_max_str_digits` or `PYTHONINTMAXSTRDIGITS`, or running an older interpreter without it, is not modelled.
- The `PORT` conversion (`src/main.py:94`) and the unused `last_ip` field (`src/main.py:16`): not part of the logic modelled; `LoadConfig` stops at the point where the bot would be built.
