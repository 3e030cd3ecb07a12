# Flag trivia rooms: a Dafny model of the game-state logic

The game shows a flag and four country names. Players in a shared room each
submit one guess per round. When the round's five seconds are up, every
answer is scored, the result is broadcast, and a new round starts. This
project models the game-state logic of `app.py` without Redis, Socket.IO,
Flask or threads:

- **round construction** (`new_round_state`);
- **the answer ledger** (`on_submit_answer`);
- **round-end scoring and the early-fire check** (`end_round`);
- **joining a room** (`on_join`);
- **room creation and room ids** (`create_room`, `random_room_id`);
- **the solo quiz's scoring branch** (`solo_quiz_api`).

Files and modules:

- `wrappers.dfy` (`Wrappers`): `Option`, `Result`, dictionary `get`, `max`.
- `catalog.dfy` (`FlagCatalog`): the flag catalog `FLAGS`. A Python dict keeps insertion order, so the model holds the ids in order beside the id → display-name map. It also defines the distractor population: the catalog ids other than the target, in catalog order.
- `rounds.dfy` (`Rounds`): the round value, `random.shuffle` as an in-place loop on an array, `new_round_state`, and the ledger decision `RecordAnswer`.
- `scoring.dfy` (`Scoring`): the per-player rule, the round-end scoring loop, the scores snapshot, and the solo rule.
- `rooms.dfy` (`Rooms`): the room value, the store invariant `ValidStore`, `random_room_id`, the `create_room` retry loop, and adding a player.
- `gateway.dfy` (`Gateway`): the handlers `on_join`, `on_submit_answer` and `end_round`.

How the outside world is represented:

- The store is the map from room id to room that Redis holds. A handler takes it and returns it updated.
- Emitted events, armed timers and exceptions are returned as a list of effects, in order.
- Random draws are parameters: the index from `random.choice`, the three distinct positions from `random.sample`, the swap indices of `random.shuffle`, and the alphabet indices of `random.choices`.
- `time.time()` is an integer count of milliseconds. The 5-second round becomes 5000, the 0.05 s slack becomes 50, and the solo default of 999 s becomes 999000.
- The participant id (the session's `sid`) is a parameter.

Every handler keeps `ValidStore` true. Under it, each stored room is filed
under its own id, scores are never negative, a room has players exactly when
it has a round, and each round is well formed:

- four distinct options, the target among them;
- option names that match the options;
- ledger entries that are correct exactly when the chosen display name equals the target's.

Some details of the code a reader may not expect, which the model follows:

- `on_submit_answer` writes the room back on every accepted submission, even when the ledger did not change (app.py:288). The stored value is the same either way.
- `on_join` sends `round_start` to the whole room, not only to the joiner (app.py:250-255), although the comment above it says otherwise.
- Answer correctness compares display names, not ids (app.py:285). `Rounds.SameNameIsCorrect` states this consequence.
- When the timer fires early, it is re-armed for a full 5 s (app.py:93, through app.py:125), although the comment there says "delay to exact end". The model follows the code (`Gateway.EndRound`, `Gateway.EarlyRearmEndsRound`). Within one server process an early fire does not arise: every timer is armed at or after the start of the round it ends. With several processes, a timer armed by another process fires out of phase. Re-arming it for the time left would make it fire together with the timer that ends the round, so both would score the same round.

The timer a join arms while a round is running is one such detail, and
"Findings" discusses it.

## Model

| member | source | states |
|---|---|---|
| `FlagCatalog.Others` | app.py:65 | the distractor population holds exactly the catalog ids other than the target |
| `FlagCatalog.OthersOfDistinct` | app.py:65 | for distinct catalog keys, the population is distinct and one shorter when the target is a key |
| `FlagCatalog.NamesOf` | app.py:72 | the option names, position by position; `Rounds.NewRoundIsWellFormed` states that they are the catalog names of the options |
| `Rounds.Sample` | app.py:65 | `random.sample` given its distinct positions; `Rounds.SampleOfDistinct` and `Rounds.NewRoundIsWellFormed` state its contract |
| `Rounds.SampleOfDistinct` | app.py:65 | three distinct sample positions give three distinct population keys |
| `Rounds.ShuffleFrom` | app.py:67 | the swaps of `random.shuffle` from one position on; `Rounds.ShuffleFromPermutes` states its contract |
| `Rounds.Shuffled` | app.py:67 | the whole shuffle; `Rounds.ShuffledMembers` and `Rounds.ShuffleInPlace` state its contract |
| `Rounds.ShuffledMembers` | app.py:67 | the shuffled list holds exactly the elements of the original |
| `Rounds.ShuffleFromPermutes` | app.py:67 | the shuffle keeps the length and the multiset of the list, so distinct options stay distinct |
| `Rounds.ShuffleInPlace` | app.py:67 | the in-place Fisher-Yates loop leaves the array equal to the shuffle of its old contents |
| `Rounds.FlagFile` | app.py:70 | the image file name; `Rounds.FlagFileShape` states its contract |
| `Rounds.FlagFileShape` | app.py:70 | the file name is the id with capitals lowered and other characters kept, followed by `.svg` |
| `Rounds.NewRound` | app.py:63-76 | the round `new_round_state` builds from its draws, or its exception; `Rounds.NewRoundIsWellFormed` states its contract |
| `Rounds.NewRoundState` | app.py:63-76 | the round built by shuffling in place is the round `NewRound` specifies, or the same exception |
| `Rounds.NewRoundIsWellFormed` | app.py:63-76 | success iff the catalog has at least 4 keys; then: 4 distinct options including the target, the 3 distractors differ from the target, option names are the catalog names of the options, start time is now, ledger is empty |
| `Rounds.ExactlyOneTarget` | app.py:66 | exactly one of the four options is the target |
| `Rounds.RecordAnswer` | app.py:272-286 | the verdict on one submission; `Rounds.TimeoutBoundary`, `Rounds.InvalidChoiceRule`, `Rounds.AcceptedLedger` and `Rounds.FirstAnswerSticks` state its contract |
| `Rounds.TimeoutBoundary` | app.py:272-277 | "timeout" iff elapsed exceeds 5 s; exactly 5 s with a valid choice is accepted |
| `Rounds.InvalidChoiceRule` | app.py:279-281 | an in-time submission is "invalid_choice" iff the choice is missing or not a catalog key |
| `Rounds.AcceptedLedger` | app.py:283-286 | acceptance changes only the ledger; an existing entry is kept; a new participant gets exactly one entry, correct iff display names are equal |
| `Rounds.FirstAnswerSticks` | app.py:283-289 | after a participant's answer is in, any later submission of theirs is rejected or leaves the round unchanged |
| `Rounds.TargetIsCorrect` | app.py:285 | choosing the target id is always recorded as correct |
| `Rounds.SameNameIsCorrect` | app.py:285 | another id with the target's display name is recorded as correct too |
| `Rounds.RecordAnswerKeepsWellFormed` | app.py:284-286 | recording an answer keeps the round well formed |
| `Scoring.Rescore` | app.py:99-102 | one player's new score; `Scoring.RescoreRule` states its contract |
| `Scoring.RescoreRule` | app.py:98-102 | correct +100, wrong `max(0, s-1)`, no answer unchanged; non-negative stays non-negative |
| `Scoring.ScoreRound` | app.py:97-102 | every player rescored; `Scoring.ScoreRoundRule` states its contract |
| `Scoring.ScoreRoundRule` | app.py:97-102 | round-end scoring keeps the player set, applies the rule per player, ignores ledger entries of non-players, keeps scores non-negative |
| `Scoring.ScorePlayers` | app.py:97-102 | the in-place loop over the players yields exactly the scored player map |
| `Scoring.ScoresOf` | app.py:105 | the scores snapshot; `Scoring.ScoresAfterRound` states its contract, and `Gateway.EndRound` ties the broadcast snapshot to the new store |
| `Scoring.ScoresAfterRound` | app.py:97-105 | the snapshot after scoring names exactly the players, each with the score the rule gives from their own ledger entry (+100 when correct, unchanged without an entry), and stays non-negative |
| `Scoring.SoloAnswer` | app.py:172-182 | the solo answer branch; `Scoring.SoloUsesRoundRule` states its contract |
| `Scoring.SoloUsesRoundRule` | app.py:164-182 | the solo answer scores by the same rule; late, targetless or invalid answers leave the score unchanged; scores stay non-negative |
| `Rooms.RandomRoomId` | app.py:47-48 | six draws from the alphabet; `Rooms.RoomIdShape` states its contract |
| `Rooms.RoomIdShape` | app.py:47-48 | a generated room id is 6 characters, each in A-Z or 0-9 |
| `Rooms.AlphabetIsUppercaseAndDigits` | app.py:48 | the alphabet has 36 characters, each an uppercase letter or a digit |
| `Rooms.CreateRoom` | app.py:196-213 | at most 5 ids are looked up, in draw order; failure (500) iff all 5 exist, and then nothing is written; otherwise the first free id gets an empty room with no round |
| `Rooms.EmptyRoomKeepsStoreValid` | app.py:206-212 | writing a new empty room keeps the store invariant |
| `Rooms.AddPlayer` | app.py:233-236 | adding the joining participant; `Rooms.AddPlayerRule` and `Rooms.AddPlayerIdempotent` state its contract |
| `Rooms.AddPlayerRule` | app.py:233-236 | a new participant gets score 0; existing entries are unchanged |
| `Rooms.AddPlayerIdempotent` | app.py:233-236 | joining twice adds the player once |
| `Gateway.OnJoin` | app.py:222-258 | unknown room: error, nothing changes; otherwise the player is added, a round is built only if none exists and an existing one is kept, the room is written, the events are sent and the timer is armed for a full 5 s, even for a round already running (the delay as written, see "Findings"); the store invariant is kept |
| `Gateway.OnSubmitAnswer` | app.py:261-289 | no room or round: "Room not ready"; a rejection leaves the store unchanged and names the reason; acceptance writes the ledger `RecordAnswer` gives; the store invariant is kept |
| `Gateway.FiredEarly` | app.py:90-91 | the early-fire test; `Gateway.EarlyRearmEndsRound` and `Gateway.JoinRearmEndsOnTime` state when it holds |
| `Gateway.EndRound` | app.py:84-123 | missing room or round: no-op, no re-arm; early fire: only a re-arm for a full 5 s; otherwise scores by the rule, broadcasts the target and a snapshot equal to the new scores, replaces the round, re-arms |
| `Gateway.EarlyRearmEndsRound` | app.py:90-93 | an early fire after the round's start re-arms past the round's end, and that next fire is not early, so it ends the round |
| `Gateway.JoinRearmDelayMsAsWritten` | app.py:258 | the join's re-arm as written, which `Gateway.OnJoin` arms: a full 5 s whatever the round's age; `Gateway.JoinRearmAsWrittenOverruns` states the consequence |
| `Gateway.JoinRearmAsWrittenOverruns` | app.py:78-82 | as written, a join 3 s into a round moves the timer's fire to 8 s after the round's start, and that fire is not early; an answer at 6 s is rejected as late meanwhile, where the corrected delay would be 2 s |
| `Gateway.JoinRearmDelayMs` | app.py:258 | the corrected join re-arm: the time left in the round, or 0 if it is over; `Gateway.JoinRearmEndsOnTime` states its contract |
| `Gateway.JoinRearmEndsOnTime` | app.py:90-91 | with the corrected delay, a join during a round leaves the fire at exactly 5 s after the start, not early, with an answer at that moment still accepted; after the round's end it fires at once; a fresh round gets the full 5 s |
| `Gateway.CorrectAnswerEarnsBonus` | app.py:97-102 | answering the target in time earns exactly +100 at round end; an accepted second submission leaves the round, ledger included, and the points unchanged |

## Findings

| source | as written | input that shows it | evidently intended | confidence | as-written member | corrected member |
|---|---|---|---|---|---|---|
| app.py:258 | a join calls `schedule_round_end`, which cancels the room's timer and arms a new one for a full 5 s (app.py:78-82, app.py:125), even when the room's round is already running | one server process: a round starts at 0 s, a second player joins at 3 s. The timer that would fire at 5 s is cancelled and the new one fires at 8 s. Answers from 5 s to 8 s are rejected as late (app.py:273) while the round stays open, and every further join pushes the end back again | a round ends 5 s after its start time, as the answer window (app.py:273) and the early-fire guard with its comment "delay to exact end" (app.py:90-93) assume: a join during a round arms the timer for the time left in the round | medium, not executed | `Gateway.JoinRearmDelayMsAsWritten`, `Gateway.JoinRearmAsWrittenOverruns` | `Gateway.JoinRearmDelayMs`, `Gateway.JoinRearmEndsOnTime` (`Gateway.OnJoin` itself arms the delay as written) |

## Left out

- Redis access (`save_room`, `load_room`) and the JSON round trip: the store is a map passed in and returned. The 600 s expiry (`ex=600`) is a feature of the foreign store and is not modelled.
- Socket.IO transport, room subscription (`join_room`) and the cross-process message queue: emits are returned as effect values; the subscription is not represented.
- `Gateway.EndRound` assumes that every emit succeeds and returns. The callback runs on a timer thread and uses the request-bound `emit` (app.py:8, app.py:106, app.py:115). If that `emit` raised outside a request, the round would be neither saved nor re-armed. The Socket.IO library is not part of this model.
- `threading.Timer`, the `room_timers` registry and cancel-before-arm: arming is the `ArmTimer` effect. Deferred execution, cancellation and the lost-update races between concurrent handlers are not modelled; each handler runs as one atomic step.
- Randomness and `time.time()`: draws and the millisecond time are parameters. Float seconds below one millisecond are not represented.
- `ensure_session_id`, Flask routes, templates, minify, the limiter and loading `flags.json`: the participant id and the catalog are inputs.
- `get_new_quiz_state` (app.py:129-143), which picks the next solo question: it duplicates round construction into the session and is not part of this model. The solo model covers only the scoring branch.
- The round's `"state": "playing"` field: it is constant and never read.
- `Rounds.FlagFile` lowers only ASCII letters, because catalog ids are ASCII codes. Python's Unicode `str.lower` is not modelled.
- An uncaught exception from `new_round_state` is modelled as the `Raised` effect, with the store unchanged. This happens for a catalog with fewer than four flags. It ends the handler, and for `end_round` it stops the timer chain.
- `Gateway.OnSubmitAnswer`, `Gateway.EndRound`: these require the store invariant `ValidStore`, which every handler keeps. Without it, `FLAGS[rnd["flag_id"]]` could raise `KeyError`; the model does not cover that case.
- `Scoring.SoloAnswer` takes `choice` and the session values as optional strings. Python's truthiness of other JSON value types is not modelled.
- `Scoring.SoloAnswer` requires the session's `flag_id`, when truthy, to be a catalog key. A session whose `flag_id` is no longer in the catalog makes `FLAGS[flag_id]` raise `KeyError` (app.py:177); the model does not cover that case.
- `Gateway.OnSubmitAnswer` takes `choice` as an optional string. A JSON list or object sent as the choice makes `choice not in FLAGS` raise `TypeError` (app.py:279), and no acknowledgement is sent; the model does not cover that case.
